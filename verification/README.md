# Algorithms of the 7-Zip C sources, verified

Five algorithms and one protocol of the 7-Zip C sources. The algorithms are modelled in Dafny as the
sources run them: loops over arrays that are changed in place, with the machine words, packed fields
and early exits of the original. Each is proved against a specification that mentions none of that.
The protocol is modelled as the steps of its threads on the fields they share.

**The block sorter** (`BwtSort.c`) orders all rotations of a block of 1 to 2^20 bytes. It sorts by
two bytes first, then doubles the number of bytes it is sorted on in every pass. A pass keeps the
size of each group in the spare high bits of the words that hold the order, and `SortGroup` reads
group ranks that it changes itself while it runs. The files build up as follows.

- `BwtRotations` and `BwtGroups`: rotations, and what an order and a rank per position promise about them.
- `BwtSizes`: the packed group sizes, with the masks and shifts of the source (`Bitwise`).
- `BwtKeys`, `BwtSmallGroup`, `BwtRangeSort`, `BwtSortState`, `BwtSortGroup`: one call of `SortGroup`.
- `BwtRadix`, `BwtPass`, `BwtSort`: the two-byte sort, one pass, and `BlockSort` as a whole.

**The Huffman builder** (`HuffEnc.c`) turns frequencies into code lengths and canonical codes. One
array holds in turn the sorted symbols, the weights of the tree nodes, their parents, their levels,
and the codes. A node that would be too deep is put where a shorter leaf was.

- `HuffTree`, `HuffOptimal`: the two-queue merge without arrays, and why no lengths that satisfy the
  Kraft inequality cost less.
- `HuffTies`, `HuffDepth`: what taking a leaf first on ties is good for, and how deep a tree can be.
- `HuffRun`: the merge step by step, and the levels it leads to.
- `HuffSort`, `HuffBuild`, `HuffLevels`: sorting the symbols, building the tree, counting the levels.
- `HuffLimit`, `HuffClamp`: what happens when `maxLen` is too small for the alphabet, and which lengths a
  tree that was too deep leaves.
- `HuffCodes`, `HuffSymbols`, `HuffResult`, `HuffEnc`: canonical codes, the way back from the sorted
  order to the symbols, and `Huffman_Generate` as a whole.

**The binary-tree match finder** (`LzFind.c`) reports, for one position of the data after another,
the longest and nearest earlier strings. Each hash bucket has a search tree of positions, ordered by
the strings that start there and with newer positions on top; all trees share one cyclic array of
references, which forgets positions that have left the window. References are 32-bit numbers that
are reduced when the position wraps round.

- `LzText`, `LzTree`: comparing strings, the trees without arrays, how a new position splits one, and
  which matches the way down reports.
- `LzSon`: what the references in the array stand for, the writes of a search, the window that moves, and
  the reduction of references.
- `LzSearch`: `GetMatchesSpec1` and `SkipMatchesSpec` as loops over the array.
- `LzForest`, `LzWindow`: the trees of all buckets from one position to the next, and the matches
  against the whole window.
- `LzMatches`: the same matches in terms of the bytes alone, and the hash.
- `LzPlain`: the match finder without arrays, whose positions never wrap, and why the other one is no different.
- `LzFind`: the match finder as an object.
- `LzFindOpt`: many positions in one call, from known hash heads (`LzFindOpt.c`).

**The x86 branch filter** (`Bra86.c`) replaces the relative operands of calls and jumps by absolute
ones, or back, in place. An opcode byte may also be part of an operand; a mask of the last three bytes
decides which opcodes are left alone, and some operands are inverted and moved a second time.

- `X86Word`: the arithmetic on one operand, and its inverse.
- `X86Scan`: the scan over the bytes, and why the opposite scan finds the same operands.
- `X86Law`: what becomes of each byte, said without scans.
- `X86Conv`: the converter over an array, and data that comes in pieces.

**The range coder** of BCJ2 (`Bcj2Enc.c`, `Bcj2.c`) codes single decisions with probabilities that it
learns. The encoder holds back bytes that a carry may still change, and stops anywhere when there is
no more room.

- `RangeNumber`: the exact number that is coded, and why the decoder gets every decision back.
- `RangeCoder`: encoder and decoder as objects that stop and go on.
- `RangeCost`: what one decision costs, and a run of equal ones.
- `RangeStream`: whole streams, with room and input in pieces.

**The threads of the match finder** (`LzFindMt.c`): one hashes, one searches trees, one encodes. Two
rings of blocks lie between them, and all three stop and start again.

- `MtSync`: one ring, its semaphores and its lock.
- `MtPipeline`: the three threads, every step of each, and the invariants.
- `MtRuns`: what follows for every interleaving.
- `MtProgress`: why no wait lasts for ever, whichever thread is given the next turn.
- `MtFreedom`: what no thread is kept from.

`Arith`, `Bitwise`, `Machine`, `Counting`, `Sums`, `Permutations` and `Sort` are shared.

Remarks:

- The conditions for `Huffman_Generate` written in `HuffEnc.h:13-18` are not enough. With the frequencies 1, 1, 1
  and `maxLen` 1 the search at `HuffEnc.c:301` finds no leaf and reads outside its counters; the model stops there
  and returns `ok == false`. `HuffEnc.Generate` says for all inputs when that happens: exactly when there are more
  than 2^maxLen used symbols and they do not pair off, that is, when their number is odd or one of them occurs more
  often than two others together. With more than 2^maxLen symbols that do pair off (1, 1, 1, 1 and `maxLen` 1) the
  search is never asked; the function ends, and leaves symbols without a code. So the result is a code exactly when
  there are at most 2^maxLen used symbols, and `HuffResult.TooManySymbols` shows that more fit no prefix code at all.
- The clamp does not give the best code among those of at most `maxLen` bits, and nothing here says
  so. What is proved is that the result is optimal among all prefix codes exactly when the unlimited
  tree is no deeper than `maxLen`, so exactly when the clamp is not used.
- A search of the match finder visits at most `cutValue` nodes. With a cut value of at least the history
  size (or 0, which counts as 2^32) every search reports exactly the best matches of the window, whatever
  came before. With a smaller one a search that is cut short also drops nodes, so what is promised of later
  searches is only that their matches are real.
- The mask that the x86 filter starts with is one that it can return, so below 8; the header gives 0
  for the first call.

## Model

| member | source | states |
|---|---|---|
| `BwtSort.BlockSort` | 7zip-main/C/BwtSort.c:410-628 | For every block of 1 to 2^20 bytes: `Indices` ends as a permutation of the positions whose rotations are in lexicographic order (equal rotations adjacent), free of size bits; `Groups` is its inverse; the result is the rank of rotation 0 |
| `BwtSort.RadixSort` | 7zip-main/C/BwtSort.c:419-526 | The two-byte counting sort leaves an order sorted on two bytes, a rank per position that names the first slot of its group, and size words that describe exactly these groups |
| `BwtRadix.PlacedInvariant` | 7zip-main/C/BwtSort.c:463-513 | Positions in the slots of a stable counting sort by byte pair, ranked by the first slot of their pair, satisfy the invariant of the first pass (the size words are the business of `RadixSort`) |
| `BwtSort.SortPasses` | 7zip-main/C/BwtSort.c:529-612 | The doubling passes end, for every block, with no two slots in one group, or with ties that are equal rotations |
| `BwtPass.Pass` | 7zip-main/C/BwtSort.c:540-610 | One pass turns groups equal on h bytes into groups equal on 2h bytes, only ever splits the groups it started from and keeps their relative order, keeps the size words in step, and returns 0 if and only if everything is sorted |
| `BwtPass.MergeFinished` | 7zip-main/C/BwtSort.c:572-584 | A finished block is merged with the finished one before it: one size for both, every position unchanged |
| `BwtPass.TakeSize` | 7zip-main/C/BwtSort.c:562-571 | The masks and shifts read back the size and the live flag that were packed, and leave bare positions |
| `BwtPass.ClearSizes` | 7zip-main/C/BwtSort.c:613-626 | The last loop removes every size bit and changes no position |
| `BwtSortGroup.SortGroup` | 7zip-main/C/BwtSort.c:100-309 | One group is rearranged and split so that members that still share a rank agree on 2h bytes; nothing outside the group changes; the order stays sorted by the ranks the pass started with, although the ranks it reads may already be new; the flag says whether any rank is shared |
| `BwtSortGroup.SortSmallGroup` | 7zip-main/C/BwtSort.c:123-215 | The same for a group sorted by key words of rank and place |
| `BwtSortGroup.Partition` | 7zip-main/C/BwtSort.c:257-278 | The two-ended scan separates the members by the rank h bytes ahead, without losing any, on every input |
| `BwtSortState.PassStep` | 7zip-main/C/BwtSort.c:100-309 | Splitting one group by the current ranks h bytes ahead keeps the order sorted, the ranks valid labels, and the result a refinement of the ranks at the start of the pass |
| `BwtRangeSort.HalvesSorted` | 7zip-main/C/BwtSort.c:304-306 | Two recursive calls, the second on ranks the first has changed, together do what one call promises |
| `BwtRangeSort.RangeOfOne` | 7zip-main/C/BwtSort.c:250-256 | When the range has shrunk to one, all members agree h bytes ahead, by the ranks of the start of the pass: nothing is left to compare |
| `Rotations.AgreeFromAhead` | 7zip-main/C/BwtSort.c:137-153 | Agreement on h bytes, here and at the wrapped position h bytes ahead, is agreement on 2h bytes |
| `BwtSizes.SetGroupSize` | 7zip-main/C/BwtSort.c:80-90 | The or'ed size bits make the stretch carry its own length at its head and leave every position readable |
| `BwtSizes.SetFinishedGroupSize` | 7zip-main/C/BwtSort.c:74-78 | The same for finished groups, without the live bit |
| `BwtSizes.MaskedSize` | 7zip-main/C/BwtSort.c:562 | The mask and shift of the source extract the ten low bits of the size |
| `BwtSizes.MaskedFlags` | 7zip-main/C/BwtSort.c:564-565 | The two flag masks test the live and the big bit |
| `HuffEnc.Generate` | 7zip-main/C/HuffEnc.c:35-346 | For all inputs that `HuffEnc.h` admits: it ends without reading outside its counters if and only if there are at most 2^maxLen used symbols or they pair off; it then leaves a complete canonical prefix code (lengths in 1..maxLen, Kraft sum exactly 1, a rarer symbol never with the shorter code, nor the earlier of two that are as frequent) if and only if there are at most 2^maxLen, and otherwise some used symbol without a code. From two used symbols on exactly these have a code; no prefix code is cheaper if and only if the unlimited tree is at most maxLen deep; and there are as many codes of each length as leaves per level in the tree cut at its first node of level maxLen or more, after each of the nodes from there on has lowered the deepest leaf that is not on level maxLen yet. With fewer, symbol 0 and the used one, or 0 and 1, get one bit |
| `HuffEnc.ThreeOnes` | 7zip-main/C/HuffEnc.h:13-18 | Three symbols that occur once each and a limit of one bit, which the header admits: the search for a leaf fails |
| `HuffEnc.OneBit` | 7zip-main/C/HuffEnc.h:13-18 | Both ways of having too many symbols occur within the conditions of the header: three ones do not pair off, four do |
| `HuffLimit.PairedIff` | 7zip-main/C/HuffEnc.c:185-254 | No node has a parent when the leaves end, so that the search is never asked, exactly when the leaves are even in number and none is heavier than the two lightest together |
| `HuffLimit.PairsOffIff` | 7zip-main/C/HuffEnc.c:185-254 | The same of the frequencies, which the caller can check: an even number of used symbols, none more frequent than two others together |
| `HuffLimit.StuckOrCounted` | 7zip-main/C/HuffEnc.c:283-307 | With more than 2^maxLen leaves the counters after the last leaf either fill the space of maxLen bits, or have no leaf above level maxLen while the next node is too deep, since what waits then is all within one level |
| `HuffLevels.LeafAboveIff` | 7zip-main/C/HuffEnc.c:296-302 | With Kraft sum 1 some leaf is above the last level if and only if there are fewer than 2^maxLen leaves |
| `HuffResult.CodedFits` | 7zip-main/C/HuffEnc.c:309-344 | What the function promises is possible only with at most 2^maxLen used symbols |
| `HuffResult.CodedPrefixFree` | 7zip-main/C/HuffEnc.c:323-344 | Of the resulting code words none begins another one, and each fits its length |
| `HuffResult.CodedPlace` | 7zip-main/C/HuffEnc.c:323-344 | Each code word begins where those before it end: as a fraction it is the sum of the shares of all shorter words, and of those as long whose symbols come earlier |
| `HuffResult.LightIsShallow` | 7zip-main/C/HuffEnc.c:289-306 | Frequencies that sum to less than the Fibonacci number F(maxLen + 3) never need the clamp, so their code is optimal |
| `HuffResult.TooManySymbols` | 7zip-main/C/HuffEnc.c:296-302 | More used symbols than 2^maxLen fit no prefix code of at most maxLen bits |
| `HuffResult.OptimalShallow` | 7zip-main/C/HuffEnc.c:202-253 | If any lengths of at most maxLen bits are optimal, the tree of the source, which takes the leaf on ties, is at most maxLen deep |
| `HuffTies.TreeUnder` | 7zip-main/C/HuffEnc.c:202-253 | Among the cheapest trees the one built has the smallest depth |
| `HuffDepth.DeepWeight` | 7zip-main/C/HuffEnc.c:185-254 | An item at level d makes the whole alphabet weigh at least a combination of Fibonacci numbers |
| `HuffOptimal.LowerBound` | 7zip-main/C/HuffEnc.c:185-254 | No lengths that satisfy the Kraft inequality cost less than the two-queue merge that the loop performs |
| `HuffTree.LevelsCost` | 7zip-main/C/HuffEnc.c:185-254 | The levels of the tree cost exactly the sum of the weights of its nodes |
| `HuffSort.SortSymbols` | 7zip-main/C/HuffEnc.c:47-132 | The first `num` words are the used symbols, each once, in strictly rising order of frequency and then symbol, however the buckets and the sort of the last one divide the work |
| `HuffBuild.BuildTree` | 7zip-main/C/HuffEnc.c:172-255 | The loop with its three exits performs the merges of the two-queue algorithm, in place, until no leaf is left; every node with a parent names it and every symbol stays in its slot |
| `HuffTree.StepWeight` | 7zip-main/C/HuffEnc.c:185-254 | Merging neither loses nor adds weight, so sums stay within their 22 bits |
| `HuffRun.ParentOf` | 7zip-main/C/HuffEnc.c:194-198 | Every node but the root is a child of exactly one later node |
| `HuffRun.TopIsFlat` | 7zip-main/C/HuffEnc.c:261-281 | Once the leaves are gone nodes are paired off in order, and a node made then has a level below log2 of the number of leaves, so its children need no clamp |
| `HuffRun.LevelFalls` | 7zip-main/C/HuffEnc.c:283-307 | Nodes made later are no deeper, so once the clamp is used it is used to the end |
| `HuffRun.KraftExact` | 7zip-main/C/HuffEnc.c:283-307 | The Kraft sum over the levels of all items is exactly 1 after any number of merges |
| `HuffLevels.LevelsUp` | 7zip-main/C/HuffEnc.c:258-281 | Above the last leaf every node gets its level, and the counters count the leaves of the tree cut off there |
| `HuffLevels.LevelsDown` | 7zip-main/C/HuffEnc.c:283-307 | It gets to node 0 if and only if there is no node with a parent or at most 2^maxLen leaves; in the second case the counters then count `num` leaves with Kraft sum exactly 1 and none below maxLen. They are the levels of the tree unless the clamp was used; in any case they come from those of the tree cut at its first node of level maxLen or more, by one step for each node from there on: a leaf of level v becomes two of level v + 1, and no level strictly between v and maxLen has a leaf |
| `HuffLevels.NearestLeaf` | 7zip-main/C/HuffEnc.c:296-302 | The search ends at the deepest level above maxLen that has a leaf, and below index 0 only if none has |
| `HuffClamp.LoweredKeeps` | 7zip-main/C/HuffEnc.c:296-304 | As long as the levels from lo on have room for the nodes that are too deep, the search never gets above lo, and the counters above lo stay |
| `HuffClamp.LengthsKept` | 7zip-main/C/HuffEnc.c:283-322 | Then every symbol above level lo has, after the clamp, the length that it has in the unlimited tree |
| `HuffEnc.ClampedIff` | 7zip-main/C/HuffEnc.c:294-302 | The clamp is used exactly when some leaf of the tree is below level maxLen |
| `HuffEnc.GiveLengths` | 7zip-main/C/HuffEnc.c:309-322 | The sorted symbols get the lengths that the counters down to maxLen stand for, longest first; those for which there is no leaf, and all others, get none |
| `HuffEnc.FirstCodes` | 7zip-main/C/HuffEnc.c:323-330 | The first code of each length, as in section 3.2.2 of RFC 1951, without overflow |
| `HuffEnc.GiveCodes` | 7zip-main/C/HuffEnc.c:332-344 | Every symbol gets the first code of its length plus the number of earlier symbols of that length |
| `HuffEnc.TwoCodes` | 7zip-main/C/HuffEnc.c:134-158 | With at most two used symbols exactly two symbols get one bit, the lower one code 0, and all used ones are among them; with fewer than two these are 0 and the used one, or 0 and 1 if that is none or 0 |
| `HuffCodes.CanonicalPrefixFree` | 7zip-main/C/HuffEnc.c:323-344 | Lengths that satisfy the Kraft inequality make the canonical words of two symbols such that neither begins the other |
| `LzFind.MatchFinder.GetMatches` | 7zip-main/C/LzFind.c:1114-1168 | For every pair reported, of the bytes alone: the position lies within the history size, as many bytes agree, no fewer than are hashed and no more than matchMaxLen, and one more would be beyond matchMaxLen, beyond the data, or a byte that differs; lengths and distances rise, and there are no more pairs than the cut value. If the cut value is 0 or at least the history size, whatever within the history agrees on the hashed bytes or more is matched as long and as near. The new state is the one `Skip` leaves too |
| `LzMatches.ReportsTrue` | 7zip-main/C/LzFind.c:961-1029 | In every state of the trees and for every cut value the pairs are true matches that cannot be longer |
| `LzMatches.ReportsAll` | 7zip-main/C/LzFind.c:1114-1168 | With a cut value of 0 or of the history size nothing in the history is left without a match as long and as near, lengths counted up to matchMaxLen and the end of the data |
| `LzMatches.OwnBucket` | 7zip-main/C/LzFind.c:32-65 | Two bytes have a bucket of their own, and of three bytes those with the same one in the middle, whatever the table |
| `LzFind.MatchFinder.Skip` | 7zip-main/C/LzFind.c:1121-1130 | Skipping num positions leaves the hash, the array, the position and the trees exactly as num calls of GetMatches do |
| `LzFind.MatchFinder.MovePos` | 7zip-main/C/LzFind.c:831-873 | The position, the place in the cyclic array and the references after one step, with the reduction when the position wraps |
| `LzFind.MatchFinder.Init` | 7zip-main/C/LzFind.c:539-597 | Clearing the hash is enough: whatever the rest of the array holds, the state is valid and has no trees |
| `LzFind.Normalize` | 7zip-main/C/LzFind.c:764-827 | Every reference becomes its saturating difference |
| `LzSearch.GetMatchesSpec1` | 7zip-main/C/LzFind.c:961-1029 | The loop leaves the array as the walk through the tree does and reports the hits of that walk, although it starts comparing only where both bounds agree |
| `LzSearch.SkipMatchesSpec` | 7zip-main/C/LzFind.c:1032-1088 | The same array without reporting |
| `LzSearch.BothAgree` | 7zip-main/C/LzFind.c:985 | Every node below agrees with the current string on min(len0, len1) bytes |
| `LzSon.WalkSplits` | 7zip-main/C/LzFind.c:1010-1028 | The writes of one search leave in the array the two parts of the split tree, hung below the new position, and nothing else is changed |
| `LzTree.SplitSound` | 7zip-main/C/LzFind.c:961-1029 | Both parts are again ordered by strings and newest first, with everything before, and everything after, the new string |
| `LzTree.SplitKeeps` | 7zip-main/C/LzFind.c:1001-1006 | If the way is not cut short, the only position dropped is one with the same string as the new one |
| `LzTree.HitsExact` | 7zip-main/C/LzFind.c:961-1029 | If the way is not cut short, the reported pairs are exactly the pairs of length and position in the tree that no other pair beats |
| `LzTree.HitsReal` | 7zip-main/C/LzFind.c:961-1029 | However soon the way is cut short, every pair is real and lengths rise |
| `LzSon.RepReduce` | 7zip-main/C/LzFind.c:843-867 | The reduction of all references leaves every tree of the window as it was |
| `LzSon.RepTrim` | 7zip-main/C/LzFind.c:971-977 | The check against cyclicBufferSize hides exactly the positions that have left the window |
| `LzForest.NextInv` | 7zip-main/C/LzFind.c:1091-1168 | After one position all buckets are again sound trees in the array, inside the new window, near the end of the data and across the wrap of the position too |
| `LzForest.OtherBucket` | 7zip-main/C/LzFind.c:961-1029 | A search in one bucket does not disturb the tree of another one in the same array |
| `LzForest.NoCut` | 7zip-main/C/LzFind.c:1025 | A way has fewer nodes than the history size allows, so a cut value of that size cuts nothing |
| `LzWindow.LargeCutBest` | 7zip-main/C/LzFind.c:1114-1168 | With such a cut value the pairs are the best of the whole window, not only of the bucket |
| `LzWindow.BestUnique` | 7zip-main/C/LzFind.c:1114-1168 | The data alone decides which pairs these are |
| `LzPlain.FromStart` | 7zip-main/C/LzFind.c:831-873 | From `Init` on, over any number of positions and for any cut value, the finder with 32-bit positions, a cyclic array and reduced references has the trees, and reports at each position the pairs, of a finder that is a recursion on trees alone, with positions that count on without end |
| `LzPlain.TrimmedGrows` | 7zip-main/C/LzFind.c:1091-1168 | That finder keeps one sound tree of earlier positions for each value of the hashed bytes |
| `LzPlain.NearestReported` | 7zip-main/C/LzFind.c:961-1029 | For every cut value, however small: the nearest position with the same hash value, if it is in the window and agrees on the hashed bytes, is the first to be reported, with all the bytes that it has in common |
| `LzFindOpt.GetMatchesSpecN2` | 7zip-main/C/LzFindOpt.c:223-400 | It gets through at least one position, goes on exactly as long as there are positions and fewer than `limit` words are written, and so writes fewer than limit + 2 * lenLimit. For the positions it gets through it leaves the array that one call after the other leaves and writes exactly what these calls report, with the short way for repeats: true matches that cannot be longer, for a large cut value all of them; it never returns NULL |
| `LzFindOpt.EntryAt` | 7zip-main/C/LzFindOpt.c:271-312 | What is written for a position, word by word: twice the number of matches, then length and distance less one of each |
| `LzFindOpt.LastEntry` | 7zip-main/C/LzFindMt.c:575-595 | The last entry may go beyond the limit, by fewer words than twice the length limit: the reserve of matchMaxLen * 2 words in a block is enough |
| `LzFindOpt.ShortWay` | 7zip-main/C/LzFindOpt.c:319-355 | If the head agrees on all bytes the whole search comes to copying one pair and reporting one match |
| `LzFindOpt.RepeatsOn` | 7zip-main/C/LzFindOpt.c:319-355 | One more byte that agrees makes the next position a repeat at the same distance |
| `X86Conv.Convert` | 7zip-main/C/Bra86.c:47-175 | In place, for every buffer, address, mask and direction: with what follows converted by later calls from the returned place, mask and address, all bytes come out as in one scan; fewer than five bytes are left. Byte by byte (`X86Law`): an E8 or E9 with a whole operand whose upper byte is 00 or FF is converted unless two of the three bytes before are opcodes that stayed, or the upper operand byte of one that did, being a byte of this operand too, is 00 or FF; its operand, as a signed number of 25 bits, is moved by the address of the next instruction, up when encoding and down when decoding, with the inversion and second move where the guarded byte becomes 00 or FF; every other byte stays. Without E8 and E9 nothing changes |
| `X86Law.ScanLaw` | 7zip-main/C/Bra86.c:47-175 | One scan obeys this law, for all bytes, masks, addresses and both directions |
| `X86Law.OneResult` | 7zip-main/C/Bra86.c:47-175 | The law leaves no choice: which calls are converted, and every byte of the result, are determined by the buffer, mask, address and direction |
| `X86Law.NothingToConvert` | 7zip-main/C/Bra86.c:69-80 | Bytes among which there is no E8 and no E9 stay as they are |
| `X86Conv.StreamObeys` | 7zip-main/C/Bra.h:76-90 | Any sequence of calls, each on what the last one left and more, obeys the law on the whole data |
| `X86Conv.StreamBack` | 7zip-main/C/Bra.h:76-90 | Decoding undoes encoding, and encoding decoding, from any address and mask, however the data is cut into calls on either side |
| `X86Conv.CutsUnseen` | 7zip-main/C/Bra.h:76-90 | Any sequence of calls, each on what the last one left and more, gives the bytes of one scan |
| `X86Scan.ScanBack` | 7zip-main/C/Bra86.c:47-175 | The opposite scan from the same place, mask and address restores the bytes |
| `X86Scan.ScanGuards` | 7zip-main/C/Bra86.c:91-98 | The upper operand byte of an opcode in the mask stays a sign, or no sign, whatever is converted later, so the opposite scan takes the same decisions |
| `X86Scan.StillKept` | 7zip-main/C/Bra86.c:91-104 | An opcode that one scan leaves alone the opposite scan leaves alone too |
| `X86Word.ConvertedBack` | 7zip-main/C/Bra86.c:101-124 | The converted operand is near again, its guarded byte is no sign, and the opposite conversion gives back the operand, second move and wrap-around included |
| `RangeNumber.RoundTrip` | 7zip-main/C/Bcj2.c:28-252 | For every sequence of decisions and contexts the decoder, learning the same probabilities, gets the decisions back; it accepts the first five bytes, reads the stream to its end, and ends with code 0 |
| `RangeNumber.ShiftNumber` | 7zip-main/C/Bcj2Enc.c:46-80 | What is written, held back and in low denotes one number, which a shift multiplies by 256 exactly; a carry never reaches a byte that is written |
| `RangeNumber.CodedGood` | 7zip-main/C/Bcj2Enc.c:183-192 | A decision moves the number within its range, and one byte of normalization before the next one is always enough |
| `RangeNumber.BoundInside` | 7zip-main/C/Bcj2Enc.c:315-330 | With probabilities of 31 to 2017 in 2048 neither part of the range is empty, and adaptation keeps them there |
| `RangeNumber.FlushedVal` | 7zip-main/C/Bcj2Enc.c:363-365 | After the five shifts at the end the bytes written are the number, digit by digit |
| `RangeNumber.DecodesOne` | 7zip-main/C/Bcj2.c:98-108 | If the stream lies in the range after a decision, the decoder finds this decision, needs at most one byte for it, and its code stays below the range |
| `RangeCoder.RangeEncoder.ShiftLow` | 7zip-main/C/Bcj2Enc.c:46-80 | The loop writes what the number says; stopped in the middle of a carry, the next call ends as if there had been no stop |
| `RangeCoder.RangeEncoder.Encode` | 7zip-main/C/Bcj2Enc.c:183-331 | A decision, in place, or nothing if there is no room for the byte it needs: a 0 leaves range / 2048 * p of the range and takes away the 32nd part of the probability of a 1, a 1 leaves the rest and takes away that of a 0; all other contexts stay |
| `RangeCoder.RangeEncoder.Finish` | 7zip-main/C/Bcj2Enc.c:363-365 | However often it stops, the end is that of five shifts, and without a stop the bytes are the flushed number |
| `RangeCoder.RangeDecoder.Begin` | 7zip-main/C/Bcj2.c:32-51 | The first five bytes, in any number of calls; an error exactly for a first byte that is not 0, as soon as there is one, or a code of 2^32 - 1 |
| `RangeCoder.RangeDecoder.Decode` | 7zip-main/C/Bcj2.c:211-235 | A decision, in place and without wrap of the code, with the same part of the range and the same learning; nothing exactly if it needs a byte that is not there yet |
| `RangeStream.Encode` | 7zip-main/C/Bcj2Enc.c:183-365 | However little room is given after each stop, and it always is enough in the end, the bytes are those of the number that the decisions make; n equal decisions take no more than 199 bytes and one for every 256 |
| `RangeStream.FirstHalf` | 7zip-main/C/Bcj2Enc.c:22-42 | The first decision of a context halves the range |
| `RangeCost.Shares` | 7zip-main/C/Bcj2Enc.c:315-330 | A 0 leaves the number and takes p parts in 2048 of the range, rounded; a 1 moves the number by that and takes the rest |
| `RangeCost.Learns` | 7zip-main/C/Bcj2Enc.c:315-330 | A decision takes away the 32nd part, rounded down, of the doubt that there will be another like it |
| `RangeCost.RunIsShort` | 7zip-main/C/Bcj2Enc.c:183-331 | Whatever the probability was, n equal decisions take no more than 194 bytes and one for every 256: after 192 the doubt is below 32 in 2048, and one costs less than the 64th part of the range |
| `RangeStream.Decode` | 7zip-main/C/Bcj2.c:28-252 | For every stream, right or wrong, and every way of cutting it: the bits that the arithmetic gives, an error, or not enough input, each exactly when the whole stream says so |
| `RangeStream.Transfer` | 7zip-main/C/Bcj2.c:28-252 | Every sequence of decisions comes back from the decoder, wherever the encoder runs out of room and the decoder out of input |
| `MtSync.ReadKeeps` | 7zip-main/C/LzFindMt.c:122-187 | Every step of the reading thread, stop included, keeps the invariant of a ring: free, filled, held and half-filled blocks add up to its size, filled ones are those made and not taken, and each is in its slot |
| `MtSync.FillKeeps` | 7zip-main/C/LzFindMt.c:448-549 | Every step of the filling thread keeps it |
| `MtSync.ReleaseFits` | 7zip-main/C/LzFindMt.c:176-177 | No semaphore is released beyond the count it was made with |
| `MtPipeline.ThreadsKept` | 7zip-main/C/LzFindMt.c:448-794 | Every step of every thread keeps both rings, the locks, and where BT can be in one ring by where it is in the other |
| `MtPipeline.PositionsKept` | 7zip-main/C/LzFindMt.c:579-737 | Until a stop, the positions BT has read are those it has passed on and those of the block it fills |
| `MtRuns.MoveIsAlone` | 7zip-main/C/LzFindMt.c:473-488 | In every interleaving the window moves only while neither LZ nor BT is inside a block, and neither can take a position before it has moved |
| `MtRuns.SlotsAreSafe` | 7zip-main/C/LzFindMt.c:497-540 | In every interleaving no slot is written whose block is held or waits to be read |
| `MtRuns.BlocksInOrder` | 7zip-main/C/LzFindMt.c:122-147 | In every interleaving both readers see the blocks 0, 1, 2, … of a run, each in the slot they look at |
| `MtRuns.NoDeadlock` | 7zip-main/C/LzFindMt.c:122-187 | In every reachable state in which LZ waits, some thread can take a step it has to take |
| `MtProgress.ForwardLowers` | 7zip-main/C/LzFindMt.c:122-187 | While LZ waits, every step that a thread has to take, whichever it is, lowers a number that says how far the end of the wait is |
| `MtProgress.WaitIsBounded` | 7zip-main/C/LzFindMt.c:122-187 | From every reachable state no more than a constant number of such steps are possible before the wait ends: no livelock |
| `MtProgress.WaitEnds` | 7zip-main/C/LzFindMt.c:122-187 | From every reachable state such steps lead to the end of the wait |
| `MtFreedom.EveryBlockComes` | 7zip-main/C/LzFindMt.c:122-240 | From every reachable state LZ can stop, start again, and get block after block, as many as it wants |
| `MtFreedom.NextBlockComes` | 7zip-main/C/LzFindMt.c:122-147 | From every block LZ can go on to the next one without a stop |
| `MtFreedom.LzIsFree` | 7zip-main/C/LzFindMt.c:945-1000 | In every reachable state in which LZ has a block it can take any number of the positions left in it and no more, ask for the next block exactly when none is left, and stop |
| `MtFreedom.BtIsFree` | 7zip-main/C/LzFindMt.c:579-737 | While BT fills a block it can take as many positions as its hash block has and its own has room for, end its block, and take the next hash block exactly when this one is used up |
| `MtFreedom.HashIsFree` | 7zip-main/C/LzFindMt.c:448-549 | HASH can put up to kMtHashBlockSize - 2 positions into a block, and move the window whenever it is about to ask for one |
| `MtRuns.RestartIsFresh` | 7zip-main/C/LzFindMt.c:224-240 | Whenever LZ is outside both other threads sleep, no lock is held, and MatchFinderMt_InitMt succeeds and restores the first state of both rings |
| `MtRuns.LeadIsReserved` | 7zip-main/C/LzFindMt.c:870-871 | HASH is never further ahead of LZ than the kHashBufferSize + kBtBufferSize = 2^18 + 2^20 positions that are reserved for it |

## Left out

- `HeapSort`: only declared in `Sort.h`; an insertion sort with the same contract (sorted, same words) stands in for it.
- One buffer: `BlockSort` keeps order, counters and ranks in one array; the model has an array for each. That the three parts do not overlap is therefore not a result.
- Unrolled loops: the counting and placing loops of `BlockSort` are written with one step a turn.
- Compile-time variants: `BLOCK_SORT_EXTERNAL_FLAGS`, `BLOCK_SORT_USE_HEAP_SORT`, the form of STORE_PARENT without half-word writes, `NUM_COUNTERS` of 2 or less, and the inverse transform.
- `STORE_PARENT` is modelled as replacing the upper 16 bits; byte order is not modelled.
- Reads outside the counters: where the search of `HuffEnc.c:301` finds no leaf the model ends; what the original then does is not defined by its language.
- Clamped codes: how far the result is from the best code of at most maxLen bits when the clamp is used.
- Small hashes: `Bt3`, `Bt4` and `Bt5`, which look up two and three bytes in tables of their own first; modelled are `Bt2` and `Bt3Zip`, which do not. The hash has 2^16 buckets, all that the two hash functions can name.
- `posLimit`: the checks of `MatchFinder_CheckLimits` are made at every position and not only where `posLimit` says; `lenLimit` is computed where it is used. The data is all in memory, so `MatchFinder_MoveBlock` and `MatchFinder_ReadBlock` are not modelled, and `buffer` is an index into it.
- `LzFind.MatchFinder.constructor`: allocation succeeds; a history size of 0 or 2^32 - 1 and more, with which the cyclic array would have one place or none, is excluded.
- End of data: once fewer bytes are left than the hash needs, nothing is promised about the trees, as the source says too (`LzFind.c:1104-1112`).
- Hash chains (`Hc_GetMatchesSpec`) and the saturating subtraction in vector registers.
- `LzFindOpt.GetMatchesSpecN2`: reads the heads from a sequence and writes to one; pointers into the buffers are indices. What BT does around the call (`LzFindMt.c:579-737`) is not modelled beyond its protocol.
- Threads: creation and end of threads (`MtSync_Create`, `MtSync_Destruct`, the `exit` flag) and system errors. What the blocks of `LzFindMt.c` contain is modelled by their number, their place and how many positions they cover; that a position takes at least one word of a bt block, and the header two words of a hash block, is where the bounds on these come from.
- `MtProgress.WaitIsBounded`: BT ends its block of matches at some time; how many hash blocks it takes for it is left to it, so taking one more is not a step it has to take. That a thread with a step to take is given a turn is up to the scheduler.
- Memory order: each step on shared fields is atomic, and seen by all threads at once.
- BCJ2 around its range coder: the search for markers, the four streams and the buffers of `Bcj2.c` and `Bcj2Enc.c`. Contexts and decisions come from the caller.
- The other branch filters (`Bra.c`), `Delta.c`, the archive reader (`7zArcIn.c`), hashes, CRC and AES.
- Running time and memory use.
