# Compression, packages, expressions, factors and a queue

This project models the parts of a repository of C programs in which the hard decisions are made,
and proves what they are for. Most of it is BusyBox 1.36.1; the queue is from a small server.

- **gzip** (`Deflation`, `Parsing`, `Searching`, `Window`, `HashChains`, `BlockCoding`, `Huffman` and the modules
  they import):
  the compressor from the first byte read to the last bit written. The window with its hash chains,
  lazy matching, the token buffers, the construction of length-limited Huffman codes in a heap, the
  run-length coding of code lengths, the choice between three kinds of block, and the bit buffer are
  classes and loops over arrays, as in C. The decoder they are proved against is written from
  sections 3.1 and 3.2 of RFC 1951 alone (`Rfc1951`) and shares nothing with the compressor but the format.
  Which matches are looked for, found and sent is defined on the input alone in `Parsing`.
- **lzop** (`Lzo1x`, `LzoRewrites`, `LzoStages`, `LzoTrace`, `LzoOptimizer`, `Adler32`): the pass that rewrites a
  compressed block in place while it decodes it, and the checksum.
- **dpkg** (`DebVersion`, `VersionLaws`, `NameTable`, `DependencyLines`, `PackageDeps`): the order of versions,
  as it is computed and as laws about their texts, the open hash tables, reading dependency lines into flat lists of edges, storing packages, and the check that
  all dependencies can be satisfied.
- **factor** (`WheelTable`, `Wheel`, `FactorLists`, `Factoring`) and **expr** (`Expr`).
- **server** (`SocketQueue`): the bounded queue between the accepting thread and the workers, as a state
  machine over every interleaving of lock, wait, signal and unlock, with spurious wake-ups.

Five comments of the code are measured against it:

- That depth as a tie breaker "minimizes the worst case length" (gzip.c:1123) is true:
  `HuffmanTrees.WorstCaseLength`.
- That the lengths are "optimal" (gzip.c:1155 and 1294) is true exactly when none was cut off at the
  longest length allowed: `HuffmanTrees.OptimalExactly`, with a block for which it fails in `CutExample`,
  and two conditions that a caller can test in `Huffman.Workspace.BuildTree`.
- That a block gets the "best encoding" (gzip.c:1702) is true up to 17 bits: `BlockChoice.ShortestExactly`
  says when it is the shortest, and `StoredExample` has one that is not.
- That 65521 is the largest prime below 65536 (lzop.c:514) is true: `Adler32.LargestPrime`.
- That the wheel leaves out no candidate (factor.c:57) is true on every lap.

How to read the modules: `Numbers` and `Bits` hold powers of two, shifts, sums and bit strings. A merge of
two tree nodes is a `Merging.Merge`; the list of merges stands for the tree, and the roots left after the
first merges are the set over which most of the inductions about trees run (`Merging.Active`). Weights, depths
and heights are sequences indexed by node.

## Model

| member | source | states |
|---|---|---|
| Deflation.Compress | hw18_fs_arm_busybox/busybox-1.36.1/archival/gzip.c:2064-2106 | For every input and every way the reads may split it, the bytes that come out decode, by the decoder of sections 3.1 and 3.2 of RFC 1951, to exactly the input, with nothing left over but padding; and they are the blocks of the tokens that lazy matching makes of the input |
| Deflation.Deflater.Deflate | hw18_fs_arm_busybox/busybox-1.36.1/archival/gzip.c:1810-1912 | The blocks sent since it began, the last of them marked as final, decode to all of the input; their tokens together are what lazy matching makes of the input, by a relation between input and tokens alone: the search at each place looks at the nearest earlier strings with the same hash, in reach and as many as may be tried, finds the first of the longest, and its match is sent if and only if the search one byte on finds none longer; each block is the one chosen for its tokens, and ends exactly where the buffer is full or the block seems to pay |
| Deflation.Deflater.BestMatch | hw18_fs_arm_busybox/busybox-1.36.1/archival/gzip.c:1831-1855 | What the search returns is what the relation between input and tokens says for this place and the length to beat; without a head in reach, or from 16 bytes to beat on, nothing is found; a match is cut to the lookahead, and dropped at 3 bytes more than 4096 bytes away |
| Searching.SomethingFound | hw18_fs_arm_busybox/busybox-1.36.1/archival/gzip.c:710-784 | The candidates tried in the window, with whatever bytes lie behind the input, are the nearest earlier strings of the input with the same hash, so that the outcome is that of the search in the input |
| Parsing.RunsOfOneByte | hw18_fs_arm_busybox/busybox-1.36.1/archival/gzip.c:1810-1912 | Whatever lazy matching makes of one byte over and over is two literals, then matches at distance 1 of 258 bytes or what is left, and the last one or two bytes as literals |
| Parsing.ThreeHundred | hw18_fs_arm_busybox/busybox-1.36.1/archival/gzip.c:1810-1912 | For 300 bytes these are two literals and matches of 258 and of 40 bytes |
| Deflation.OneByteInput | hw18_fs_arm_busybox/busybox-1.36.1/archival/gzip.c:1810-1912 | So are the tokens of all the blocks that the compressor sends for such an input |
| Blocks.InflateStream | hw18_fs_arm_busybox/busybox-1.36.1/archival/gzip.c:1680-1766 | Every stream of stored, fixed and dynamic blocks, one after another at any bit position, is decoded to what the blocks stand for, and the decoder stops where the stream ends |
| Blocks.DecodeBlockAt | hw18_fs_arm_busybox/busybox-1.36.1/archival/gzip.c:1680-1766 | The decoder reads each kind of block, with its header, exactly as it was encoded |
| Window.Matcher.FillWindow | hw18_fs_arm_busybox/busybox-1.36.1/archival/gzip.c:641-689 | After reading, and after sliding the window if need be, the window holds the input from its base on, the hash chains still lead to equal positions, no position of the input has moved, and either more was read or the end was seen |
| Window.Matcher.InsertString | hw18_fs_arm_busybox/busybox-1.36.1/archival/gzip.c:1803-1808 | The chains cover one position more; the running hash is that of the string at the position, and what is returned is the old head of its chain: the nearest earlier string of the window with the same hash, or none |
| Window.Matcher.LongestMatch | hw18_fs_arm_busybox/busybox-1.36.1/archival/gzip.c:710-784 | The candidates tried follow the chain from the first one until the distance, the number of tries or a match of 128 bytes ends the search, and none before the last has 128 bytes; none of them is longer than the length returned; a length above the previous one is that of the first of the longest, which really repeats that many bytes of the input |
| Window.Matcher.MatchIsReal | hw18_fs_arm_busybox/busybox-1.36.1/archival/gzip.c:752-766 | A candidate of which bytes 0, 1 and 3 on are compared matches in byte 2 as well, since the strings have equal hashes |
| HashChains.ThirdByte | hw18_fs_arm_busybox/busybox-1.36.1/archival/gzip.c:1774-1778 | Strings of three bytes that agree in the first two and in the hash agree in the third |
| HashChains.HashThreeIs | hw18_fs_arm_busybox/busybox-1.36.1/archival/gzip.c:1774-1778 | The hash of three bytes is the exclusive or of the first one's low three bits, the second one and the third one, five bits apart |
| HashChains.InsertKeeps | hw18_fs_arm_busybox/busybox-1.36.1/archival/gzip.c:1803-1808 | Linking a position in front of the chain of its hash keeps every chain going back through all earlier positions with that hash, none left out |
| HashChains.SlideKeeps | hw18_fs_arm_busybox/busybox-1.36.1/archival/gzip.c:655-673 | Moving all links down by half the window, with those that leave it cut to none, keeps the chains, complete, for the moved base |
| BlockCoding.BlockCoder.CtTally | hw18_fs_arm_busybox/busybox-1.36.1/archival/gzip.c:1573-1625 | The buffers, flags and frequency counts are those of the tokens with the new one added; a flush is asked for exactly when the buffer is full, or at a multiple of 4096 tokens, fewer than half of them matches, if eight bits a token and the bits of the distances come to less than half of the input |
| BlockCoding.BlockCoder.InitBlock | hw18_fs_arm_busybox/busybox-1.36.1/archival/gzip.c:1095-1112 | The block is empty: no tokens, the frequencies of an empty block with its one end code, totals zero |
| BlockCoding.BlockCoder.CompressBlock | hw18_fs_arm_busybox/busybox-1.36.1/archival/gzip.c:1630-1673 | What is sent for the buffered tokens is their codes and extra bits in order, and the end-of-block code |
| BlockCoding.BlockCoder.FlushBlock | hw18_fs_arm_busybox/busybox-1.36.1/archival/gzip.c:1680-1766 | The block sent stands for the tokens; with fixed or dynamic codes it is at least 11 bits shorter than a stored block that could be sent; a dynamic one, whose three codes are Huffman codes for the tokens' own frequencies, is shorter than the fixed one, and a fixed one at most 7 bits longer than the dynamic one; a stored one is at most 17 bits longer than either, since the code does not count its header and padding, and its length fits into 16 bits; a new block is begun, and a final one is padded to whole bytes |
| BlockChoice.ShortestExactly | hw18_fs_arm_busybox/busybox-1.36.1/archival/gzip.c:1702-1755 | The block sent is the shortest of the three in bits if and only if, when it is stored, its padding and lengths are counted and it still pays, and, when it has fixed codes, the dynamic body is not shorter |
| StoredExample.StoredIsLonger | hw18_fs_arm_busybox/busybox-1.36.1/archival/gzip.c:1730-1742 | For the 15 literals 144 to 158 the code stores the bytes, although the fixed codes take 10 bits and the padding less, whatever dynamic block there is |
| StoredExample.SendFifteen | hw18_fs_arm_busybox/busybox-1.36.1/archival/gzip.c:1680-1766 | A new coder given these literals sends 160 bits where the fixed codes take 145 |
| BlockCosts.DynamicLength | hw18_fs_arm_busybox/busybox-1.36.1/archival/gzip.c:1511-1538 | The bits of a dynamic block, trees and data, are exactly what the three cost sums and the header add up to, and those of the fixed block what the static sums add up to, so that the comparison is one of real sizes |
| BlockCosts.SmallBlockOptimal | hw18_fs_arm_busybox/busybox-1.36.1/archival/gzip.c:1312-1394 | In a dynamic block of fewer than 2583 tokens the literal and length code is the cheapest of all prefix codes if and only if there is a token, and the distance code if and only if not just one distance code occurs |
| Huffman.Workspace.PqDownHeap | hw18_fs_arm_busybox/busybox-1.36.1/archival/gzip.c:1127-1149 | The node sinks so that the heap is ordered from its place on, by frequency and then by depth; places before it do not change, and the nodes are only permuted |
| Huffman.Workspace.GenBitLen | hw18_fs_arm_busybox/busybox-1.36.1/archival/gzip.c:1161-1244 | The lengths are a complete code for exactly the leaves, none beyond the maximum; they are the depths in the tree if nothing overflows; otherwise the counts are those after half the overflow of leaves have been moved, and lighter leaves do not get shorter lengths; the two totals grow by the exact cost |
| Huffman.Workspace.Repair | hw18_fs_arm_busybox/busybox-1.36.1/archival/gzip.c:1210-1222 | From counts that over-subscribe the code space by half the overflow, moving leaves ends with counts that fill it exactly |
| TreeShape.RepairedKraft | hw18_fs_arm_busybox/busybox-1.36.1/archival/gzip.c:1210-1222 | Lengths with the repaired counts fill the code space exactly and do not exceed the maximum |
| Huffman.Workspace.BuildTree | hw18_fs_arm_busybox/busybox-1.36.1/archival/gzip.c:1312-1394 | A complete code with a code for every symbol that occurs, from a Huffman tree with depth as the tie breaker; no prefix code is cheaper if and only if no symbol occurs, or at least two do and no depth was cut off; nothing was cut off if all lengths are below the maximum, or if the sum of the frequencies is below a Fibonacci number |
| Optimality.HuffmanOptimal | hw18_fs_arm_busybox/busybox-1.36.1/archival/gzip.c:1290-1297 | Huffman's theorem: if no depth was cut off, no prefix code for the symbols that occur makes the block shorter |
| HuffmanTrees.OptimalExactly | hw18_fs_arm_busybox/busybox-1.36.1/archival/gzip.c:1290-1297 | The lengths are optimal, as the comment promises, if and only if nothing was cut off, and not just one symbol occurs |
| CutExample.NotOptimal | hw18_fs_arm_busybox/busybox-1.36.1/archival/gzip.c:1154-1159 | In every dynamic block for tokens whose literals occur as often as Lucas numbers say, the literal and length code is cut off, and some other prefix code is cheaper |
| CutExample.BuildCut | hw18_fs_arm_busybox/busybox-1.36.1/archival/gzip.c:1680-1700 | A new coder given 3569 literals builds such a block |
| HuffmanTrees.WorstCaseLength | hw18_fs_arm_busybox/busybox-1.36.1/archival/gzip.c:1122-1125 | Depth as the tie breaker minimises the worst case length: the codes along the tree are a prefix code as cheap as any, none longer than the tree is high, and every prefix code as cheap has a code at least as long |
| TreeHeight.LightIsShallow | hw18_fs_arm_busybox/busybox-1.36.1/archival/gzip.c:1312-1394 | A tree of which the frequencies sum up to less than the Fibonacci number of the longest length plus three is never cut off |
| TreeHeight.LowTrees | hw18_fs_arm_busybox/busybox-1.36.1/archival/gzip.c:1370-1373 | Frequencies of 16 bits keep every node's height below 23, so the depths kept in a byte never wrap |
| Huffman.Workspace.GenCodes | hw18_fs_arm_busybox/busybox-1.36.1/archival/gzip.c:1254-1288 | Every symbol with a length gets its canonical code, with the bits reversed; nothing else changes |
| Canonical.PrefixFree | hw18_fs_arm_busybox/busybox-1.36.1/archival/gzip.c:1254-1288 | Lengths that fit the code space: no canonical code begins with another one |
| Canonical.CodeFits | hw18_fs_arm_busybox/busybox-1.36.1/archival/gzip.c:1254-1288 | Every canonical code has no more bits than its length |
| TreeSending.ScanTree | hw18_fs_arm_busybox/busybox-1.36.1/archival/gzip.c:1402-1447 | The code length frequencies grow by exactly how often each symbol occurs in the run-length coding of the lengths |
| TreeSending.SendTree | hw18_fs_arm_busybox/busybox-1.36.1/archival/gzip.c:1454-1505 | What is sent is the code of each step of the same run-length coding, with its repeat count |
| LengthCoding.RleExpand | hw18_fs_arm_busybox/busybox-1.36.1/archival/gzip.c:1402-1505 | Running the steps of the run-length coding gives back the lengths, from any place on and after any previous length |
| BlockCoding.BlockCoder.BuildBlTree | hw18_fs_arm_busybox/busybox-1.36.1/archival/gzip.c:1511-1538 | The code length code can send both trees, and the last rank is the greatest one in use |
| BlockCoding.BlockCoder.SendAllTrees | hw18_fs_arm_busybox/busybox-1.36.1/archival/gzip.c:1545-1567 | The three counts, the code length lengths in their order, and both coded trees are sent |
| BlockCoding.OrderSame | hw18_fs_arm_busybox/busybox-1.36.1/archival/gzip.c:898-900 | The order in which the coder sends the code length lengths is that of section 3.2.7 of RFC 1951 |
| BitWriter.Writer.SendBits | hw18_fs_arm_busybox/busybox-1.36.1/archival/gzip.c:541-574 | The low bits of the value are appended to the stream, least significant first, whatever is pending in the bit buffer |
| BitWriter.Writer.BiWindup | hw18_fs_arm_busybox/busybox-1.36.1/archival/gzip.c:596-609 | The stream is padded with zero bits to a whole byte, and nothing stays pending |
| BitWriter.Writer.CopyBlock | hw18_fs_arm_busybox/busybox-1.36.1/archival/gzip.c:615-631 | The stream is padded, then the length, its complement and the bytes are appended |
| BitWriter.BiReverse | hw18_fs_arm_busybox/busybox-1.36.1/archival/gzip.c:581-591 | The bits of a code in the opposite order |
| Tables.LengthTables | hw18_fs_arm_busybox/busybox-1.36.1/archival/gzip.c:1983-1996 | Every match length has the code and the base of RFC 1951, section 3.2.5, with the code of length 258 overwritten last |
| Tables.DistanceTables | hw18_fs_arm_busybox/busybox-1.36.1/archival/gzip.c:1998-2014 | Every distance has its code, found in the table at one place for near distances and at another, by multiples of 128, for far ones |
| Tables.StaticLTree | hw18_fs_arm_busybox/busybox-1.36.1/archival/gzip.c:2016-2048 | The fixed literal and length code of section 3.2.6 |
| Tables.StaticDTree | hw18_fs_arm_busybox/busybox-1.36.1/archival/gzip.c:2050-2054 | The fixed distance code |
| LzoOptimizer.Optimize | hw18_fs_arm_busybox/busybox-1.36.1/archival/lzop.c:144-394 | For every block that decodes, however long, rewriting it in place leaves a block of the same size that decodes to the same bytes, and those bytes are what is written to the output; the pass goes over the instructions one by one, and rewrites exactly those for which it is due |
| LzoTrace.DueIs | hw18_fs_arm_busybox/busybox-1.36.1/archival/lzop.c:211-331 | A match without literals whose instruction takes as many bytes as it stands for is due to be turned into literals between two matches if that makes three, and before a run if one byte can count all the literals; so is one of three bytes in two between two runs; by the bytes that the pass tests |
| LzoStages.GrowStage | hw18_fs_arm_busybox/busybox-1.36.1/archival/lzop.c:222-232 | Turning a match into literals of the run before it keeps what the block decodes to |
| LzoStages.MergeStage | hw18_fs_arm_busybox/busybox-1.36.1/archival/lzop.c:233-257 | Turning a match into literals of the run behind it, with the run's count in front of the literals already there, keeps what the block decodes to |
| LzoStages.JoinStage | hw18_fs_arm_busybox/busybox-1.36.1/archival/lzop.c:275-293 | Joining a run, a match of three bytes and the next run into one run keeps what the block decodes to |
| Adler32.LzoAdler32 | hw18_fs_arm_busybox/busybox-1.36.1/archival/lzop.c:510-537 | The checksum is the one defined by two running sums reduced modulo 65521 at each byte, although the loop reduces only every 5552 bytes |
| Adler32.ClosedForm | hw18_fs_arm_busybox/busybox-1.36.1/archival/lzop.c:510-537 | Both sums by their definition, modulo 65521: the sum of the bytes, and the sum of the bytes each as often as there are bytes from it on |
| Adler32.LargestPrime | hw18_fs_arm_busybox/busybox-1.36.1/archival/lzop.c:514-514 | The modulus is the largest prime below 65536 |
| Adler32.ChecksumConcat | hw18_fs_arm_busybox/busybox-1.36.1/archival/lzop.c:555-562 | Continuing from the checksum of one part gives the checksum of both parts together |
| Adler32.NoOverflow | hw18_fs_arm_busybox/busybox-1.36.1/archival/lzop.c:515-520 | Within 5552 bytes neither sum exceeds 32 bits |
| DebVersion.VersionCompare | hw18_fs_arm_busybox/busybox-1.36.1/archival/dpkg.c:283-334 | The sign is that of comparing epochs, then upstream versions, then revisions by their keys |
| DebVersion.VersionComparePart | hw18_fs_arm_busybox/busybox-1.36.1/archival/dpkg.c:239-277 | The sign is that of comparing the two keys: characters by their order, and numbers by value however many zeros lead them |
| DebVersion.VersionsTransitive | hw18_fs_arm_busybox/busybox-1.36.1/archival/dpkg.c:283-334 | Versions that come no later one after another come no later as a whole, and earlier if one step is strict |
| DebVersion.VersionsAntisymmetric | hw18_fs_arm_busybox/busybox-1.36.1/archival/dpkg.c:283-334 | Swapping two versions swaps the sign |
| DebVersion.VersionsReflexive | hw18_fs_arm_busybox/busybox-1.36.1/archival/dpkg.c:283-334 | Every version is equal to itself |
| DebVersion.TildeFirst | hw18_fs_arm_busybox/busybox-1.36.1/archival/dpkg.c:229-237 | A version followed by a tilde and anything else comes before it |
| VersionLaws.DifferentCharacters | hw18_fs_arm_busybox/busybox-1.36.1/archival/dpkg.c:229-254 | After any common beginning, two different characters that are no digits decide: a tilde before all, letters before all others, and else by their codes |
| VersionLaws.EndOfPart | hw18_fs_arm_busybox/busybox-1.36.1/archival/dpkg.c:229-254 | The end of a part sorts before every character but a tilde |
| VersionLaws.DigitBeforeCharacter | hw18_fs_arm_busybox/busybox-1.36.1/archival/dpkg.c:229-254 | A digit sorts before every other character but a tilde |
| VersionLaws.Numbers | hw18_fs_arm_busybox/busybox-1.36.1/archival/dpkg.c:256-277 | After any common beginning, two runs of digits decide by their values; if these are equal, the rests decide |
| VersionLaws.MissingNumber | hw18_fs_arm_busybox/busybox-1.36.1/archival/dpkg.c:256-277 | A number at the end of one part only is compared with zero |
| VersionLaws.WholeVersions | hw18_fs_arm_busybox/busybox-1.36.1/archival/dpkg.c:283-334 | Versions written from an epoch, an upstream version and a revision compare by the values of the epochs, a missing one zero, then by the upstream versions, which may hold further colons and hyphens, then by the revisions, a missing one empty |
| DebVersion.TestVersion | hw18_fs_arm_busybox/busybox-1.36.1/archival/dpkg.c:336-354 | Each relation holds exactly for the sign of the comparison that it names |
| VersionLaws.RelationLaws | hw18_fs_arm_busybox/busybox-1.36.1/archival/dpkg.c:336-354 | Exactly one of less, equal and more holds between two versions; the other relations are made of them, and less is more the other way round |
| NameTable.EverySlot | hw18_fs_arm_busybox/busybox-1.36.1/archival/dpkg.c:169-206 | With a prime table size, the steps of a search reach every slot |
| NameTable.Names.SearchName | hw18_fs_arm_busybox/busybox-1.36.1/archival/dpkg.c:189-206 | The string gets the slot it had, or a free one if it is new, nothing else changes, and every string stays where its search finds it |
| NameTable.SameIndexSameName | hw18_fs_arm_busybox/busybox-1.36.1/archival/dpkg.c:189-206 | Over every run of searches two strings get the same index if and only if they are equal |
| NameTable.TableSizes | hw18_fs_arm_busybox/busybox-1.36.1/archival/dpkg.c:88-116 | The three table sizes are prime |
| DependencyLines.LineRoundTrip | hw18_fs_arm_busybox/busybox-1.36.1/archival/dpkg.c:429-519 | A line of clauses with alternatives and versions, written with commas, bars and relations, is read back as those clauses |
| DependencyLines.OperatorsRead | hw18_fs_arm_busybox/busybox-1.36.1/archival/dpkg.c:470-498 | Every operator, with any spacing around it: a single angle bracket is strict, and any other run of these characters is illegal |
| PackageDeps.AddSplitDependencies | hw18_fs_arm_busybox/busybox-1.36.1/archival/dpkg.c:429-519 | The edges appended are those of the clauses that the line reads as, each with a root counting its alternatives if its text has a bar; nothing if an operator is illegal; for a line that was printed they are exactly its roots and alternatives, or its provided names |
| PackageDeps.PrintedEdges | hw18_fs_arm_busybox/busybox-1.36.1/archival/dpkg.c:429-519 | For a printed line of dependencies each clause appends its root with the number of alternatives, if there are several, and then for each alternative its own name, relation and version; a printed line of provided packages appends each name once |
| PackageDeps.PrintedClauses | hw18_fs_arm_busybox/busybox-1.36.1/archival/dpkg.c:429-519 | A dependency line written from clauses stands for exactly those clauses |
| PackageDeps.Database.SearchPackage | hw18_fs_arm_busybox/busybox-1.36.1/archival/dpkg.c:356-377 | The slot of a package of that name and relation if there is any, and otherwise a free slot at which a later search would find it |
| PackageDeps.Database.SearchForProvides | hw18_fs_arm_busybox/busybox-1.36.1/archival/dpkg.c:395-408 | The next package after the start that provides the name, or -1 if there is none |
| PackageDeps.Database.Store | hw18_fs_arm_busybox/busybox-1.36.1/archival/dpkg.c:681-688 | A package with a version goes to a free slot or replaces the one of its name with an equal version; no two such are ever in the table, and every package stays where a search finds it |
| PackageDeps.Database.CheckDeps | hw18_fs_arm_busybox/busybox-1.36.1/archival/dpkg.c:1064-1177 | The phase succeeds if and only if every clause of every package to be installed has an alternative that is met: a dependency by a package that is to be installed, a pre-dependency by one that is installed already, either of the name and in the relation or providing the name |
| PackageDeps.PackageHolds | hw18_fs_arm_busybox/busybox-1.36.1/archival/dpkg.c:1064-1177 | A package with printed lines has all it asks for if and only if each written clause has a written alternative that is met, as a pre-dependency or as a dependency |
| PackageDeps.InstalledIrrelevant | hw18_fs_arm_busybox/busybox-1.36.1/archival/dpkg.c:963-978 | Without pre-dependencies the outcome does not depend on what is installed already |
| PackageDeps.OnlyInstalledRelevant | hw18_fs_arm_busybox/busybox-1.36.1/archival/dpkg.c:963-978 | With only pre-dependencies, and the same packages to install, it depends on what is installed alone |
| Expr.Evaluator.Eval | hw18_fs_arm_busybox/busybox-1.36.1/coreutils/expr.c:424-537 | The five levels of precedence, read by loops that associate to the left, give what the specification of those levels gives, or stop where it does |
| Expr.ExprMain | hw18_fs_arm_busybox/busybox-1.36.1/coreutils/expr.c:539-559 | The value of the arguments, provided that they are all used up |
| Expr.ReadsTree | hw18_fs_arm_busybox/busybox-1.36.1/coreutils/expr.c:424-537 | A tree written at any level with only the parentheses it needs is read as one operand, and the rest of the level goes on behind it |
| Expr.EvaluatesTree | hw18_fs_arm_busybox/busybox-1.36.1/coreutils/expr.c:424-537 | Every tree of operators and words, written with only the parentheses it needs, is read completely and gives the value it denotes, and dies exactly when it denotes none; what it denotes is defined without the evaluator: comparisons by number or in the order of a dictionary, division by the law of quotient and remainder |
| Expr.EvaluatesIntegers | hw18_fs_arm_busybox/busybox-1.36.1/coreutils/expr.c:424-537 | A tree of integers evaluates to the integer it stands for, defined by sums, differences, products, quotients and comparisons of integers |
| Expr.ApplyIs | hw18_fs_arm_busybox/busybox-1.36.1/coreutils/expr.c:206-255 | What the program makes of an operator and two values is what the operator is defined to give |
| Expr.OperatorWords | hw18_fs_arm_busybox/busybox-1.36.1/coreutils/expr.c:424-537 | A word is an operator of a level exactly if it is written like one of them |
| Factoring.Factor | hw18_fs_arm_busybox/busybox-1.36.1/coreutils/factor.c:162-218 | For every number from 1 below 2^64 the factors printed are prime, in order, and have the number as their product |
| Factoring.Factorizer.Factorize | hw18_fs_arm_busybox/busybox-1.36.1/coreutils/factor.c:162-218 | The factors of one call, through all recursions on perfect squares, each as often as the squares around it say |
| Factoring.Factorizer.IsqrtOdd | hw18_fs_arm_busybox/busybox-1.36.1/coreutils/factor.c:138-160 | A square's root is factored with doubled counts; otherwise the result is the greatest odd number worth trying |
| Factoring.UnpackWheel | hw18_fs_arm_busybox/busybox-1.36.1/coreutils/factor.c:99-121 | Unpacking the 24 packed words gives the increments of one round over 2310 |
| Wheel.Between | hw18_fs_arm_busybox/busybox-1.36.1/coreutils/factor.c:57-121 | On every lap, each number that the wheel steps over has a divisor among 2, 3, 5, 7 and 11 that was tried before |
| Wheel.NoneSkipped | hw18_fs_arm_busybox/busybox-1.36.1/coreutils/factor.c:162-218 | On every lap, each number with none of these divisors is tried |
| FactorLists.Isqrt | hw18_fs_arm_busybox/busybox-1.36.1/libbb/isqrt.c:20-35 | The square root rounded down, found bit by bit, for every number of 64 bits |
| SocketQueue.FirstInFirstOut | hw16_sockets/p2_server_template/parallel_server_consumer-produser/server.c:143-171 | In every interleaving of producers and consumers, what has been popped is the beginning of what has been pushed, and the difference is what the queue holds, never more than its capacity |
| SocketQueue.NoDeadlock | hw16_sockets/p2_server_template/parallel_server_consumer-produser/server.c:143-171 | In no state of any run is every thread stuck, even without spurious wake-ups |
| SocketQueue.AlwaysGoesOn | hw16_sockets/p2_server_template/parallel_server_consumer-produser/server.c:143-171 | From every state of every run, a push or a pop that is not blocked can be brought to its end |
| SocketQueue.AsleepMeansBlocked | hw16_sockets/p2_server_template/parallel_server_consumer-produser/server.c:143-171 | In every state of every run, if all threads of one kind sleep and nobody is about to wake them, the queue is empty, or full |
| SocketQueue.Queue.Store | hw16_sockets/p2_server_template/parallel_server_consumer-produser/server.c:150-152 | The client goes behind all others in the ring |
| SocketQueue.Queue.Fetch | hw16_sockets/p2_server_template/parallel_server_consumer-produser/server.c:164-166 | The oldest client leaves the ring |

## Left out

- Header and trailer of a gzip file, its CRC and the compression levels (gzip.c:2064-2106): constants and a running sum around the stream that is modelled.
- Errors of `file_read` (gzip.c:522-539): a read gives at least one byte until the end of the input; read errors end the program.
- `more == (unsigned)-1` in `fill_window` (gzip.c:650-654): it cannot occur where `int` has more than 16 bits.
- Stores of unaligned 16 and 32 bit words (gzip.c:445-498): modelled as their bytes, least significant first.
- `ush` and `uch` fields: frequencies, codes and lengths are unbounded numbers where it is proved that they stay small (`TreeHeight.LowTrees` for depths, the sum of the frequencies for weights); the wrap of a new node's frequency is modelled.
- Buffer sizes other than those of the configuration at hand, which has `CONFIG_GZIP_FAST=0` (gzip.c:121-122), so `LIT_BUFSIZE` is 0x2000.
- `Window.Matcher.LongestMatch`: the longest match among the candidates tried, not in the whole window, as in the code, which stops after `max_chain_length` of them.
- `Parsing.Found`: the bytes that lie behind the end of the input in the window, which the code compares as well, are some bytes, and the window starts at some multiple of its half that leaves enough before the string; what they are depends on the reads.
- The compressors of lzop, its CRC, its file format, and blocks that do not decode (lzop.c:144-394 stops with an error code for some of them): only blocks that `lzo1x_999` produced, which decode, are passed to the optimizer (lzop.c:697-706).
- `NameTable.HashOf`: `unsigned long` has 32 bits, as the comment at dpkg.c:179 has it and as on 32-bit ARM; no result depends on the width.
- `DebVersion.VersionCompare`: an epoch is read as digits from the start of the version; `atoi` would also take spaces and a sign, and is undefined for more digits than fit.
- `DependencyLines.ReadLine`: a relation without an operator is read as an illegal one; in the code its operator is then not initialised. The name given to the root of alternatives, which is only printed, is not kept.
- The conflict phase of `check_deps` (dpkg.c:981-1063), the status table as an array (it is a map from names here), and everything that installs, removes or prints.
- `PackageDeps.Database.Store`: requires a second free slot, since a search in a full table does not end; the code asks for tables a fifth larger than what they hold.
- Keywords and `:` of expr (expr.c:272-404), and the overflow of its 64 bit arithmetic: integers are unbounded.
- Reading and printing numbers in factor (factor.c:220-274); `Factoring.Factor` starts from 1, since 0 prints nothing.
- Sockets, creation and end of threads, and fairness: no claim that a thread that can go on is ever scheduled.
