# What is proved about the tries, channels, hashes and framing

The project models five parts of the repository and proves what they promise on all inputs and over all runs.

**The HAT-trie** (`HtrieNode`, `Htrie`, `KeyOrder`, `HtrieIterator`, `HtrieTraversal`, `HtrieErase`, `HtriePrefix`,
`HtrieErasePrefix`, `HtrieSerial`). A burst trie of nodes with parent pointers stands for a finite map. Insertion with repeated bursting,
erasing with the clean-up of empty chains, lookup, longest prefix, iteration through the parent chain and ranges by prefix agree
with that map; no node is ever empty and no leaf exceeds the threshold. Iteration follows an order of paths, and what an
iterator still has ahead is a set that each step makes smaller by one key. A tree written to a stream and read back is the same
map in the same nodes. Erasing by prefix does *not* always keep these
promises. The source asserts that no hash node is empty (`inc/tsl/htrie_hash.h:546`, `833`), and the documentation of `erase_prefix` says
that the elements with the prefix go (`inc/tsl/htrie_map.h:257-258`). The code also
removes the value of the parent when the prefix leads to its only child, and leaves a leaf empty when all of its pairs match.
`HtrieErasePrefix.ErasePrefix` says exactly when, and two small trees show that both happen.

**The one-shot channel** (`Oneshot`, `OneshotCalls`). Sender and receiver share a block and settle by atomic operations on one byte. The states
and micro-steps of both sides form a machine with counters for constructions, destructions, completions and deletions; an
invariant over all interleavings gives exactly-once deletion and destruction, and waits that settle once and rightly: what a
completed wait was told follows from whether it was refused, whether a cancel won it, and whether the value was sent. A wait is
refused as a duplicate exactly if an earlier one was not cancelled, even if that one is over. `OneshotCalls` takes the calls of
one thread as runs of these steps, and what the receiver sees of a block as a channel that is open, holds a value or is broken.

**The hashes** (`Bytes`, `Words`, `WordBits`, `Longs`, `LongBits`, `Numbers`, `Modulo`, `Blocks`, `Crc32`, `KeccakF`, `KeccakBits`,
`Sponge`, `Sha256`, `Sha1`, `Md5`, `MessageDigest`). Each fast form is proved equal to a plain definition: eight tables against bits one by one, the in-place
round of Keccak against step mappings on whole states, unrolled and renamed registers against rounds that shift them. The
streams do not depend on how a message was split, reading a digest does not disturb them, and padding is stated bit for bit. So are
the operations both sides are made of: rotations, shifts, the mixing functions, the step mappings of Keccak, byte orders, and
addition as a sum of numbers modulo 2^32. A shift by n places is n shifts by one, and a sum the word of a number, so that no
conversion between numbers and bits is taken on trust.
The classes `Sponge.Hasher` and `MessageDigest.Hasher` stand for two and three source classes, whose code is the same but for
the block function, the suffix byte and the order of bytes.

**Framing** (`Framing`). Packets of a number and a body travel over a stream that arrives in arbitrary pieces. The receiver's
buffer and the reads to come are one stream, of which each call takes exactly one frame. Frames are read back exactly up to a
body of 2^31 - 9 bytes. A failed receive looks like a packet with an empty body, as it does in the source. But a read that throws
leaves the length and the bytes of the read before, which the loops add to the buffer once more
(`networkinterface/socket/TcpChannelImpl.cpp:83-88`, `105-115`): bytes are made up exactly if a packet is cut short after something
of it came in the same call, and when the socket is closed there, the packet counts as received. A send that reports
success has written its frame, but for one case: the length of the header is left behind when the body's write throws, so a
body of exactly eight bytes counts as sent (`networkinterface/socket/TcpChannelImpl.cpp:57-71`).

**Requests and replies** (`Numbering`, `Router`, `ReqRep`, `Connection`). Concurrent calls share one socket. Between two
suspensions a coroutine runs alone, and a run is any order of such steps. In every state of every run a packet is taken as the
reply to a call exactly if the call is pending, drew the packet's number and was not answered before. A call that returns brings a
reply exactly if its message was sent, messages go out in the order in which they were queued, and waits are never broken; a call
hears nothing of its send exactly if its message met no channel, and it is refused exactly when a pending one holds the same number.
The router's maps of maps hold senders of one-shot channels,
whose blocks go on by runs of `Oneshot`; the methods of `Connection.ChannelCombine`, on one socket of a router that several
share, take the steps of the machine of all calls, and a wait succeeds exactly when that machine lets its call go on. Two
weaknesses of the numbering are stated exactly: the other side's request is taken for a reply in some run exactly if the two
draws give one number, which happens once the initiative side leaves its lower half; and a number of the other side is served
only once per socket, because its entry is never erased.

`dafny verify dfyconfig.toml` checks the whole project.

## Model

| member | source | states |
|---|---|---|
| `HtrieNode.Node.FirstChild` | inc/tsl/htrie_hash.h:336-351 | the leftmost child, or none exactly if there is no child |
| `HtrieNode.Node.NextChild` | inc/tsl/htrie_hash.h:355-374 | the leftmost child to the right of the given one, or none exactly if there is none |
| `HtrieNode.Node.NbChildren` | inc/tsl/htrie_hash.h:402-406 | the number of children is the number of slots in use |
| `HtrieNode.Node.SetChild` | inc/tsl/htrie_hash.h:432-439 | the slot, the child's character and its parent pointer change together |
| `HtrieNode.Emplace` | inc/tsl/htrie_hash.h:1385-1417 | a pair joins a leaf exactly if its suffix is not there; the rest of the leaf is untouched and suffixes stay distinct |
| `Htrie.Htrie.Walk` | inc/tsl/htrie_hash.h:1502-1526 | the common descent: it stops at the node for the longest walkable part of the key |
| `Htrie.Htrie.Descend` | inc/tsl/htrie_hash.h:1502-1536 | a stored key's owner lies on the way of the key, so the walk cannot miss it |
| `Htrie.Htrie.Unique` | inc/tsl/htrie_hash.h:194-195 | a path leads to one node only |
| `Htrie.Htrie.Find` | inc/tsl/htrie_hash.h:1502-1536 | finds the position of a key exactly if the key is in the map |
| `Htrie.Htrie.Burst` | inc/tsl/htrie_hash.h:1716-1765 | the pairs of a leaf are spread over a trie node and new leaves: none is lost, none is added, no new leaf is empty or larger than the old one |
| `Htrie.Htrie.BurstInPlace` | inc/tsl/htrie_hash.h:1392-1409 | replacing the leaf by the burst node leaves the map as it was and the tree well-formed, under the root or under a parent |
| `Htrie.Htrie.InsertImpl` | inc/tsl/htrie_hash.h:1338-1370 | from any node on the key's way the insertion gives the map with the key added if it was absent and the same map otherwise |
| `Htrie.Htrie.InsertInTrieNode` | inc/tsl/htrie_hash.h:1350-1379 | a free slot gets a new leaf with the pair; at the end of the key the node gets the value unless it has one |
| `Htrie.Htrie.InsertInHashNode` | inc/tsl/htrie_hash.h:1385-1417 | the same while leaves burst again and again: each round goes at least one character down, only full leaves burst, and no leaf exceeds the threshold |
| `Htrie.Htrie.Insert` | inc/tsl/htrie_hash.h:1007-1017 | into any well-formed tree, also one whose leaves exceed a lowered threshold: map, flag, position and count; no leaf grows beyond the threshold or the largest leaf there was, no node goes but full leaves on the way of the key, and the whole invariant stays if it held |
| `Htrie.Htrie.SetBurstThreshold` | inc/tsl/htrie_hash.h:1227-1230 | the tree stays well-formed, and the bound on leaves too unless the threshold is lowered |
| `HtrieIterator.MostLeftDescendantValueTrieNode` | inc/tsl/htrie_hash.h:377-399 | the first element below a node that has no hash node on the leftmost way before it |
| `HtrieIterator.SetNextNodeAscending` | inc/tsl/htrie_hash.h:794-812 | climbing leads to the first holder to the right of what was read, or to the end if there is none |
| `HtrieIterator.Increment` | inc/tsl/htrie_hash.h:673-705 | one step: to the next matching pair of the leaf, or to the next holder in the order of the tree |
| `HtrieIterator.FilterPrefix` | inc/tsl/htrie_hash.h:763-792 | a filtered iterator skips to the next pair of the leaf whose suffix starts with the filter, and past the leaf if there is none |
| `HtrieIterator.CBegin` | inc/tsl/htrie_hash.h:1255-1271 | iteration below a node starts at its first holder |
| `HtrieIterator.CEnd` | inc/tsl/htrie_hash.h:1277-1303 | the end of a node's range is where iteration goes on to its right |
| `HtrieIterator.GetKey` | inc/tsl/htrie_hash.h:619-639 | the parent chain, turned round, with the suffix in the leaf, is the key of the element |
| `HtrieTraversal.AheadStep` | inc/tsl/htrie_hash.h:673-705 | a step of the iterator takes exactly the element it stood on away from those ahead, and nothing else |
| `HtrieTraversal.AllAhead` | inc/tsl/htrie_hash.h:935-941 | from begin every stored key is ahead |
| `HtrieTraversal.Traverse` | inc/tsl/htrie_hash.h:931-953 | from begin to end every stored pair is met once, with its key and value, and the walk ends |
| `KeyOrder.BeforeTotal` | inc/tsl/htrie_hash.h:794-844 | the order of paths in which iteration moves is total |
| `KeyOrder.BeforeTransitive` | inc/tsl/htrie_hash.h:794-844 | and transitive |
| `HtrieErase.ClearEmptyNodes` | inc/tsl/htrie_hash.h:1459-1494 | removes an empty node and the chain it leaves, never a node with a value or another child; the map stays, no empty node stays |
| `HtrieErase.Unlink` | inc/tsl/htrie_hash.h:1484-1486 | one node is cut off its parent and the tree stays well-formed |
| `HtrieErase.EraseValue` | inc/tsl/htrie_hash.h:1419-1433 | erasing the value of a trie node |
| `HtrieErase.EraseInner` | inc/tsl/htrie_hash.h:1434-1452 | erasing a pair of a leaf that keeps other pairs behind it |
| `HtrieErase.EraseLast` | inc/tsl/htrie_hash.h:1434-1452 | erasing the last pair of a leaf |
| `HtrieErase.Erase` | inc/tsl/htrie_hash.h:1419-1452 | removes exactly that key, lowers the count by one, restores the invariant, and returns the iterator to exactly what was still ahead |
| `HtrieErase.EraseKey` | inc/tsl/htrie_hash.h:1032-1040 | from any well-formed tree: one if the key was there and none otherwise; only nodes of before remain, none of them larger, so the bound on leaves stays |
| `HtriePrefix.LongestPrefix` | inc/tsl/htrie_hash.h:1546-1601 | the position of the longest stored key that is a prefix of the query, or the end if none is |
| `HtriePrefix.ProbeLeaf` | inc/tsl/htrie_hash.h:1567-1580 | the descending probes of a leaf find its longest suffix that the query goes on with |
| `HtriePrefix.EqualPrefixRange` | inc/tsl/htrie_hash.h:1612-1643 | the range for a prefix, in the three cases of where the prefix ends |
| `HtriePrefix.OnWayStep` | inc/tsl/htrie_hash.h:673-705 | inside a range the elements still to come shrink by the one left behind, until the cursor equals the end |
| `HtriePrefix.CollectPrefix` | inc/tsl/htrie_hash.h:1187-1194 | going through the range gives exactly the stored keys with the prefix, each once, and reaches the end |
| `HtrieErasePrefix.SizeDescendants` | inc/tsl/htrie_hash.h:1319-1335 | counts the elements below a node |
| `HtrieErasePrefix.EraseSubtree` | inc/tsl/htrie_hash.h:1064-1091 | cutting off a node removes exactly what it owned; the tree stays free of empty nodes exactly unless the node was the only child of a parent with a value |
| `HtrieErasePrefix.ErasePrefixHashNode` | inc/tsl/htrie_hash.h:1645-1662 | erases exactly the matching pairs of a leaf; the leaf is left empty exactly if all of them match |
| `HtrieErasePrefix.ErasePrefix` | inc/tsl/htrie_hash.h:1042-1097 | what is removed, what is counted and whether the tree stays well-formed: all as intended exactly unless the prefix leads to the only child of a node with a value, which loses that value, or empties a leaf, which stays; only nodes of before remain, none of them larger, and a well-formed result keeps the whole invariant |
| `HtrieErasePrefix.CrowdedLosesParent` | inc/tsl/htrie_hash.h:1074-1080 | however a tree was built: when more keys than a leaf may hold go on from a stored key by one character, and none by another, erasing by prefix with that character is the case that loses the stored key's value |
| `HtrieErasePrefix.LosesParentHappens` | inc/tsl/htrie_hash.h:1074-1080 | six insertions into an empty tree lead to a tree on which erasing by prefix removes a key that does not have the prefix |
| `HtrieErasePrefix.EmptiesLeafHappens` | inc/tsl/htrie_hash.h:1645-1662 | one insertion into an empty tree leads to a tree on which erasing by prefix leaves an empty hash node |
| `HtrieSerial.HashNodePrefix` | inc/tsl/htrie_hash.h:739-756 | the path of a leaf, from the parent chain |
| `HtrieSerial.RecordedNext` | inc/tsl/htrie_hash.h:1867-1909 | one turn of the writing loop: what is written are the nodes with elements up to the next one, in order |
| `HtrieSerial.Serialize` | inc/tsl/htrie_hash.h:1855-1910 | the stream is the header and one record for each node with elements, in the order of the tree, and the records' elements are as many as the tree's |
| `HtrieSerial.RecordsConsistent` | inc/tsl/htrie_hash.h:1855-1910 | no leaf written is on the way to another record, and none is empty |
| `HtrieSerial.FormOfStream` | inc/tsl/htrie_hash.h:1855-1910 | a header and two records, token by token |
| `HtrieSerial.InsertPrefixTrieNodes` | inc/tsl/htrie_hash.h:2004-2020 | the trie nodes of a prefix are made on demand: nothing is added to the map, and only the last of them may still be empty |
| `HtrieSerial.AttachLeaf` | inc/tsl/htrie_hash.h:1988-1994 | a leaf that was read is linked in, with all its pairs |
| `HtrieSerial.RootLeaf` | inc/tsl/htrie_hash.h:1976-1983 | a tree that is one leaf |
| `HtrieSerial.Rehash` | inc/tsl/htrie_hash.h:1988-1990 | the pairs of a leaf in whatever order |
| `HtrieSerial.Reader.ReadRecord` | inc/tsl/htrie_hash.h:1950-1990 | a record is read as it was written, and no more than that |
| `HtrieSerial.PutRecord` | inc/tsl/htrie_hash.h:1959-1995 | a record that fits is added to what the tree holds, which stays well-formed |
| `HtrieSerial.Deserialize` | inc/tsl/htrie_hash.h:1924-2002 | a wrong version is refused; otherwise the tree, of new nodes only, holds exactly the records, no leaf is larger than the largest record, the threshold is the stored one, and the reader stops behind the last record |
| `HtrieSerial.SameShapes` | inc/tsl/htrie_hash.h:1855-2020 | two well-formed trees with the same records have the same nodes |
| `HtrieSerial.SameMap` | inc/tsl/htrie_hash.h:1855-2020 | and are the same map |
| `HtrieSerial.SameTree` | inc/tsl/htrie_hash.h:1855-2020 | so the map, the count and the bound on leaves carry over |
| `HtrieSerial.RoundTrip` | inc/tsl/htrie_hash.h:1239-1248 | writing a tree down and reading it back into an empty one gives the same map in the same nodes, all of them new, and consumes exactly what was written; the whole invariant carries over |
| `Oneshot.NextInv` | inc/oneshot.hpp:211-364 | the invariant of the shared block holds after every micro-step of either side |
| `Oneshot.RunInv` | inc/oneshot.hpp:211-364 | so it holds in every state of every interleaving |
| `Oneshot.DeletedOnce` | inc/oneshot.hpp:245-264 | the block is deleted at most once, by the last side to leave, exactly once when both are gone, and no step touches it afterwards |
| `Oneshot.PayloadDestroyedOnce` | inc/oneshot.hpp:238-256 | a payload that was constructed is destroyed at most once, and by the time the block is deleted exactly once |
| `Oneshot.GetGivesWhatWasSent` | inc/oneshot.hpp:356-364 | what can be read is what was sent, from the moment it was sent |
| `Oneshot.WaitsSettle` | inc/oneshot.hpp:238-332 | every wait is completed at most once, and exactly once when the sender is gone or the receiver leaves |
| `Oneshot.DuplicateExactly` | inc/oneshot.hpp:311-315 | a wait is refused as a duplicate exactly if an earlier one was taken on and not cancelled, be it completed or not |
| `Oneshot.Persists` | inc/oneshot.hpp:238-332 | an outcome once given stays |
| `Oneshot.SuccessIsLasting` | inc/oneshot.hpp:356-364 | after a success the value stays readable until the receiver leaves, whatever cancels and waits come later |
| `Oneshot.BrokenIsFinal` | inc/oneshot.hpp:258-271 | told that the sender is gone, nothing is ever sent |
| `Oneshot.CancelledOnlyByCancel` | inc/oneshot.hpp:289-308 | told that it is cancelled only if a cancel took the cell from this wait |
| `Oneshot.CancelledExactly` | inc/oneshot.hpp:289-308 | and it is told so, or about to be, exactly if a cancel took the cell from it |
| `Oneshot.CancelIsTold` | inc/oneshot.hpp:297-301 | once the receiver is idle again after a cancel that won, the wait was told that it is cancelled |
| `Oneshot.RefusedExactly` | inc/oneshot.hpp:312-313 | a wait was told that it is a duplicate exactly if it was refused on finding another |
| `Oneshot.ToldExactly` | inc/oneshot.hpp:238-332 | what a completed wait was told, in any run: that it is a duplicate if it was refused, that it is cancelled if a cancel won it, and otherwise success if the value was sent and a broken sender if not |
| `Oneshot.Channel.SenderStep` | inc/oneshot.hpp:237-271 | the sender's code step by step on the fields of the block does what the machine does |
| `Oneshot.Channel.WaitStep` | inc/oneshot.hpp:273-332 | so does async_wait |
| `Oneshot.Channel.LeaveStep` | inc/oneshot.hpp:288-348 | so do the cancel handler and receiver_detached |
| `OneshotCalls.Sends` | inc/oneshot.hpp:237-256 | send() is a run of steps after which the channel holds the value and a wait that was under way has succeeded |
| `OneshotCalls.Drops` | inc/oneshot.hpp:258-271 | dropping an unused sender is a run after which the channel is broken and a wait that was under way has been told so |
| `OneshotCalls.Waits` | inc/oneshot.hpp:273-332 | a first wait is a run after which it has been told what the channel has, or goes on waiting while the channel is open |
| `OneshotCalls.Leaves` | inc/oneshot.hpp:334-348 | a receiver that leaves after the sender deletes the block, once, with its payload destroyed |
| `OneshotCalls.Gets` | inc/oneshot.hpp:356-364 | between calls, get() gives the value exactly if the channel holds one |
| `WordBits.RotateLeftBits` | hashlibrary/sha1.cpp:53-56 | bit z moves to place z + c modulo 32 (section 3.2 of FIPS 180-4) |
| `WordBits.RotateRightBits` | hashlibrary/sha256.cpp:57-60 | bit z comes from place z + c modulo 32 |
| `WordBits.ShiftRightBits` | hashlibrary/sha256.cpp:141-146 | bit z comes from place z + c, and zeros come in at the top |
| `WordBits.ChBits` | hashlibrary/sha1.cpp:38-41 | the choice of section 4.1.1 of FIPS 180-4, bit by bit |
| `WordBits.ParityBits` | hashlibrary/sha1.cpp:43-46 | the parity, bit by bit |
| `WordBits.MajBits` | hashlibrary/sha1.cpp:48-51 | the majority, bit by bit |
| `WordBits.AddValue` | hashlibrary/sha256.cpp:122-139 | addition is that of the numbers with these binary digits, modulo 2^32 |
| `WordBits.LittleBits` | hashlibrary/md5.cpp:89-97 | four bytes read as a word, the first lowest: the bits of the word are those of the bytes, in order |
| `WordBits.BigBits` | hashlibrary/sha256.cpp:107-117 | four bytes read as a word, the first highest |
| `WordBits.WordByteBits` | hashlibrary/sha256.cpp:397-404 | byte k of a word holds its bits from place 8k on |
| `LongBits.RotateLeftBits` | hashlibrary/keccak.cpp:50-53 | bit z moves to place z + n modulo 64 |
| `LongBits.LongOfBytes` | hashlibrary/keccak.cpp:96-99 | eight bytes read as a lane: its bits are those of the bytes, in order |
| `LongBits.LongByteBits` | hashlibrary/sha3.cpp:235-280 | byte j of a lane holds its bits from place 8j on |
| `Numbers.BigPlace` | Utils/Utils.cpp:76-87 | byte k of n, the highest first, counts 256^(n - 1 - k) |
| `Numbers.LittlePlace` | hashlibrary/md5.cpp:300-307 | byte k, the lowest first, counts 256^k |
| `Numbers.BigFour` | Utils/Utils.cpp:76-87 | a number below 2^32 from its four bytes, the highest first |
| `Crc32.GenerateTables` | hashlibrary/crc32.cpp:32-53 | the generator: row k at i is k + 1 zero bytes through the register |
| `Crc32.ByteMixed` | hashlibrary/crc32.cpp:32-41 | eight message bits one by one equal one byte mixed into the register and eight zero bits |
| `Crc32.ZeroXor` | hashlibrary/crc32.cpp:35-41 | the register is linear |
| `Crc32.ZeroByTable` | hashlibrary/crc32.cpp:371-374 | a zero byte through the register by one table look-up |
| `Crc32.ZerosSliced` | hashlibrary/crc32.cpp:359-368 | zero bytes through a word, split over its four bytes |
| `Crc32.FourBytes` | hashlibrary/crc32.cpp:357-358 | four bytes one at a time equal four zero bytes after mixing them in as one word |
| `Crc32.EightBytes` | hashlibrary/crc32.cpp:343-370 | eight bytes one at a time equal the combination of the eight tables |
| `Crc32.Slice` | hashlibrary/crc32.cpp:357-368 | the eight look-ups as the code combines them |
| `Crc32.ByteStep` | hashlibrary/crc32.cpp:373-374 | the look-up of the byte loop |
| `Crc32.Extend` | hashlibrary/crc32.cpp:337-377 | the two loops give the register that the bits one by one give, for every byte string |
| `Crc32.FeedIsRegister` | hashlibrary/crc32.cpp:337-377 | the bytewise register is the bitwise register of section 8 of RFC 1952 |
| `Crc32.PolynomialBits` | hashlibrary/crc32.cpp:32-39 | the constant holds the coefficients of the generator polynomial, the highest power lowest |
| `Crc32.FirstRow` | hashlibrary/crc32.cpp:54-85 | entries of the first row of the literal table, at the powers of two, from which the rest follows by linearity |
| `Crc32.FirstColumn` | hashlibrary/crc32.cpp:54-316 | and the second entry of every row |
| `Crc32.CheckValue` | hashlibrary/crc32.cpp:337-377 | the checksum of the digits 1 to 9 is 0xCBF43926 |
| `Crc32.ChecksumPlus` | hashlibrary/crc32.cpp:337-377 | a checksum taken up again gives the checksum of the whole |
| `Crc32.CRC32.Add` | hashlibrary/crc32.cpp:337-377 | however the data was split, the field holds the checksum of all that was added |
| `Crc32.CRC32.GetHash` | hashlibrary/crc32.cpp:405-411 | the four bytes are that checksum, highest first |
| `Crc32.CRC32.Compute` | hashlibrary/crc32.cpp:415-420 | resetting, adding and reading |
| `KeccakF.ThetaInPlace` | hashlibrary/keccak.cpp:104-117 | the in-place Theta is the step mapping of section 3.2.1 of FIPS 202 |
| `KeccakF.OrderIsWalk` | hashlibrary/keccak.cpp:122-147 | the chain visits the lanes in the order of the walk that numbers the offsets |
| `KeccakF.OffsetsFollowWalk` | hashlibrary/keccak.cpp:122-147 | the offsets are those of section 3.2.2 of FIPS 202: the triangular numbers along the walk |
| `KeccakF.SourceOfVisited` | hashlibrary/keccak.cpp:122-147 | what Pi moves to a lane of the chain is the lane visited just before it |
| `KeccakF.RhoPiInPlace` | hashlibrary/keccak.cpp:122-147 | the chain through one temporary is Rho and then Pi, as sections 3.2.2 and 3.2.3 of FIPS 202 define them on a whole state |
| `KeccakF.ChiInPlace` | hashlibrary/keccak.cpp:149-161 | the in-place Chi with two temporaries is the simultaneous one of section 3.2.4 of FIPS 202 |
| `KeccakF.MaskIsRoundConstant` | hashlibrary/keccak.cpp:36-47 | the table of constants is what the feedback register of section 3.2.5 of FIPS 202 generates |
| `KeccakF.RoundInPlace` | hashlibrary/keccak.cpp:102-165 | one turn of the loop is one round |
| `KeccakF.Permute` | hashlibrary/keccak.cpp:102-165 | the loop is the permutation of 24 rounds |
| `KeccakBits.ThetaBits` | hashlibrary/keccak.cpp:104-117 | Theta bit by bit: every bit is mixed with the parities of two columns (section 3.2.1 of FIPS 202) |
| `KeccakBits.RhoBits` | hashlibrary/keccak.cpp:122-147 | Rho bit by bit: the lane reached after t places of the walk is turned by (t + 1)(t + 2)/2, the lane at the origin stays (section 3.2.2) |
| `KeccakBits.PiBits` | hashlibrary/keccak.cpp:122-147 | Pi: the lane at (x, y) comes from (x + 3y, x) (section 3.2.3) |
| `KeccakBits.ChiBits` | hashlibrary/keccak.cpp:149-161 | Chi: a bit is flipped where the next in its row is clear and the one after that is set (section 3.2.4) |
| `KeccakBits.IotaBits` | hashlibrary/keccak.cpp:163 | Iota: the lane at the origin alone is mixed with the constant (section 3.2.5) |
| `KeccakBits.RoundCount` | hashlibrary/keccak.cpp:102 | lanes of 2^l bits take 12 + 2l rounds (section 3.4) |
| `Sponge.Hasher.ProcessBlock` | hashlibrary/sha3.cpp:90-168 | a block is mixed into the state and permuted |
| `Sponge.MixBits` | hashlibrary/sha3.cpp:98-101 | bit z of lane i is mixed with bit 64i + z of the block (section 3.1.2 of FIPS 202) |
| `Sponge.AbsorbPlus` | hashlibrary/sha3.cpp:172-213 | absorbing goes on from the state and the bytes left over, so the cutting does not matter |
| `Sponge.Hasher.Add` | hashlibrary/sha3.cpp:172-213 | however the message was split, the state has absorbed its whole blocks and the buffer holds the rest, which never fills a block |
| `Sponge.Hasher.Pad` | hashlibrary/sha3.cpp:217-229 | the last block: suffix byte, zeros, last bit, also when one byte takes both ends |
| `Sponge.PaddedBits` | hashlibrary/sha3.cpp:217-229 | the padded bytes are the message bits, the suffix 01 for SHA-3, and the rule 10*1 (sections 5.1 and 6.1 of FIPS 202) |
| `Sponge.AbsorbLast` | hashlibrary/sha3.cpp:217-231 | processing the buffer absorbs the padded message |
| `Sponge.SqueezeBits` | hashlibrary/sha3.cpp:235-280 | the digest is the front of the state, bit by bit |
| `Sponge.BlockSize` | hashlibrary/sha3.cpp:16-18 | block and capacity fill the state, and the capacity is twice the digest |
| `Sponge.Hasher.GetHash` | hashlibrary/sha3.cpp:235-280 | the digest is that of all bytes added, for the four sizes, and the stream goes on undisturbed |
| `Sponge.Hasher.Compute` | hashlibrary/keccak.cpp:282-287 | resetting, adding and reading, for Keccak's suffix as for SHA-3's |
| `Sha256.Step` | hashlibrary/sha256.cpp:118-126 | one line of the unrolled loop is one round of section 6.2.2 of FIPS 180-4 under other names |
| `Sha256.F2` | hashlibrary/sha256.cpp:85-90 | the shorter majority is the majority |
| `Sha256.BigSigma0Bits` | hashlibrary/sha256.cpp:85-90 | the four sigma functions of section 4.1.2 of FIPS 180-4, bit by bit: this one by 2, 13 and 22 places |
| `Sha256.BigSigma1Bits` | hashlibrary/sha256.cpp:78-83 | by 6, 11 and 25 places |
| `Sha256.SmallSigma0Bits` | hashlibrary/sha256.cpp:141-146 | by 7 and 18 places, and shifted by 3 |
| `Sha256.SmallSigma1Bits` | hashlibrary/sha256.cpp:141-146 | by 17 and 19 places, and shifted by 10 |
| `Sha256.ConstantIsRoot` | hashlibrary/sha256.cpp:122-242 | the round constants are the first 32 binary digits behind the point of the cube roots of the first 64 primes |
| `Sha256.InitialIsRoot` | hashlibrary/sha256.cpp:28-38 | the initial hash likewise, of the square roots of the first eight |
| `Sha256.Extend` | hashlibrary/sha256.cpp:138-143 | the schedule built eight words at a time is the schedule |
| `Sha256.AllRounds` | hashlibrary/sha256.cpp:118-242 | 64 lines with renamed registers and staged schedule are 64 rounds with shifted registers |
| `Sha256.ProcessBlock` | hashlibrary/sha256.cpp:95-252 | the block function of the standard |
| `Sha1.Step` | hashlibrary/sha1.cpp:99-104 | one line of a loop is one round of section 6.1.2 of FIPS 180-4 under other names |
| `Sha1.ConstantIsRoot` | hashlibrary/sha1.cpp:100-140 | the four constants are the square roots of 2, 3, 5 and 10 with 30 digits behind the point |
| `Sha1.InitialBytes` | hashlibrary/sha1.cpp:26-31 | the initial words byte by byte |
| `Sha1.FirstRound` | hashlibrary/sha1.cpp:98-107 | five rounds a turn with the shorter choice |
| `Sha1.ThirdRound` | hashlibrary/sha1.cpp:120-129 | five rounds a turn with the majority |
| `Sha1.AllRounds` | hashlibrary/sha1.cpp:93-140 | four loops of five renamed steps are 80 rounds |
| `Sha1.ProcessBlock` | hashlibrary/sha1.cpp:76-150 | the block function of the standard |
| `Md5.F1` | hashlibrary/md5.cpp:36-39 | the shorter F is F |
| `Md5.F2` | hashlibrary/md5.cpp:41-44 | the shorter G is G |
| `Md5.FBits` | hashlibrary/md5.cpp:36-39 | F of section 3.4 of RFC 1321, bit by bit: y where x is set, z elsewhere |
| `Md5.GBits` | hashlibrary/md5.cpp:41-44 | G: x where z is set, y elsewhere |
| `Md5.HBits` | hashlibrary/md5.cpp:46-49 | H: the parity |
| `Md5.IBits` | hashlibrary/md5.cpp:51-54 | I: y, flipped where x is set or z is clear |
| `Md5.InitialBytes` | hashlibrary/md5.cpp:25-29 | the initial words byte by byte (section 3.3) |
| `Md5.Line` | hashlibrary/md5.cpp:101 | one line of the code is one step of section 3.4 of RFC 1321 under other names |
| `Md5.AllSteps` | hashlibrary/md5.cpp:99-197 | 64 lines with literal words, constants and rotations are the 64 steps |
| `Md5.ProcessBlock` | hashlibrary/md5.cpp:81-204 | the block function of the standard |
| `MessageDigest.FoldPlus` | hashlibrary/sha256.cpp:256-296 | folding goes on from the hash and the bytes left over, so the cutting does not matter |
| `MessageDigest.Hasher.Add` | hashlibrary/sha256.cpp:256-296 | however the message was split, the hash is that of its whole blocks, the buffer holds the rest and the counter their number |
| `MessageDigest.Hasher.PaddedLength` | hashlibrary/sha256.cpp:308-322 | where the length field goes: in the first block or in the second |
| `MessageDigest.Hasher.Pad` | hashlibrary/md5.cpp:252-304 | the last block in the buffer, or the last two in the buffer and an extra block |
| `MessageDigest.PaddedBits` | hashlibrary/sha256.cpp:300-361 | one set bit, the least number of zeros that leaves 448 modulo 512, and the length field (section 5.1.1 of FIPS 180-4, sections 3.1 and 3.2 of RFC 1321) |
| `MessageDigest.LengthExact` | hashlibrary/sha256.cpp:339-359 | below 2^61 bytes the field is the exact number of bits |
| `MessageDigest.LengthPlaces` | hashlibrary/sha256.cpp:339-355 | the place of every byte of the field: byte k counts 256^(7 - k), and 256^k in MD5 |
| `MessageDigest.BlockBits` | hashlibrary/sha256.cpp:107-117 | the words of a block, bit by bit, in both byte orders |
| `MessageDigest.OutputBits` | hashlibrary/sha256.cpp:397-404 | the bytes of the digest, bit by bit, in both byte orders |
| `MessageDigest.Hasher.GetHash` | hashlibrary/sha1.cpp:285-306 | the digest is the fold over the padded message of all bytes added, and the stream goes on undisturbed |
| `MessageDigest.Hasher.Compute` | hashlibrary/md5.cpp:364-369 | resetting, adding and reading |
| `Framing.PackUint32` | Utils/Utils.cpp:76-87 | four bytes, the highest first |
| `Framing.PackThenUnpack` | Utils/Utils.cpp:144-161 | reading back what was written, with what follows as the tail |
| `Framing.StreamNetDealer.Pack` | networkinterface/StreamNetDealer.cpp:50-56 | the header of a frame |
| `Framing.HeadPlaces` | networkinterface/StreamNetDealer.cpp:50-56 | the header byte by byte: length and number, each with its highest byte first |
| `Framing.StreamNetDealer.Unpack` | networkinterface/StreamNetDealer.cpp:29-48 | the fields after a header was read, and when there is none |
| `Framing.FrameReadBack` | networkinterface/socket/TcpChannelImpl.cpp:95-121 | a frame is read back exactly if its body has at most 2^31 - 9 bytes |
| `Framing.OutcomeByLength` | networkinterface/socket/TcpChannelImpl.cpp:95-128 | what is made of a header by the length it carries: a packet up to 2^31 - 9, an exception for the eight greatest, and waiting for more bytes than there can be in between |
| `Framing.PacketsOfFrames` | networkinterface/socket/TcpChannelImpl.cpp:73-134 | a row of frames reads as those packets, in order |
| `Framing.TcpChannel.ReadUpTo` | networkinterface/socket/TcpChannelImpl.cpp:81-94 | reading until there is enough or nothing counts as read; a read that throws leaves the last read's length and bytes behind, which are added again |
| `Framing.TcpChannel.RecvPack` | networkinterface/socket/TcpChannelImpl.cpp:73-134 | what a receive returns and what it keeps, for reads that bring any bytes or throw: the next packet of the stream if it is all there, with the bytes behind it kept; if it is not and no bytes are made up, a failure that keeps all that came |
| `Framing.ReadingEnough` | networkinterface/socket/TcpChannelImpl.cpp:81-94 | with enough to come, reading loses nothing, adds nothing and stops before the read that throws |
| `Framing.ReadingShort` | networkinterface/socket/TcpChannelImpl.cpp:81-94 | running short, the buffer holds exactly what came unless a read throws after one that brought something; then it holds more |
| `Framing.GatheredExactly` | networkinterface/socket/TcpChannelImpl.cpp:81-120 | over both loops of a receive: bytes are made up exactly if the packet is not all there, something came in this call, and the read after it throws |
| `Framing.ClosedMakesUp` | networkinterface/socket/TcpChannelImpl.cpp:105-128 | a frame cut short by a socket that closes is received as a whole packet of the length in its header, with the missing bytes made up |
| `Framing.MadeUpHappens` | networkinterface/socket/TcpChannelImpl.cpp:105-128 | a frame without its last two bytes, received with two bytes of its header in their place |
| `Framing.TcpChannel.ReceiveAll` | networkinterface/socket/TcpChannelImpl.cpp:73-134 | for every cutting of a row of frames into reads, exactly those packets, in order |
| `Framing.AllAvailable` | networkinterface/socket/TcpChannelImpl.cpp:81-94 | reads that all bring something bring everything, and then break off |
| `Framing.TcpChannel.SendPack` | networkinterface/socket/TcpChannelImpl.cpp:27-72 | what is reported and what is on the wire, for writes that take any part of the bytes or throw |
| `Framing.SendsAFront` | networkinterface/socket/TcpChannelImpl.cpp:27-72 | what is written is always a front part of the frame |
| `Framing.SuccessMeansSent` | networkinterface/socket/TcpChannelImpl.cpp:57-71 | success means that the whole frame was written, exactly unless the body has eight bytes and its write throws; failure means that a part is missing |
| `Framing.UnsentReportedSent` | networkinterface/socket/TcpChannelImpl.cpp:57-71 | eight bytes reported as sent of which none is |
| `Framing.InterleavedFrames` | networkinterface/socket/TcpChannelImpl.cpp:38-65 | two sends whose headers go out first: the first packet is read right exactly if its body echoes the second header |
| `Numbering.Counter.NewReq` | networkinterface/ChannelCombine.h:186-213 | the k-th draw, in closed form, on both sides |
| `Numbering.NoRepeat` | networkinterface/ChannelCombine.h:186-213 | no number comes back within 2^32 - 1 draws on the initiative side and 2^31 + 1 on the passive side, and then it does |
| `Numbering.FirstDraws` | networkinterface/ChannelCombine.h:59-70 | the first numbers of both sides and where they come round |
| `Numbering.SidesMeet` | networkinterface/ChannelCombine.h:49-61 | the two sides' numbers meet exactly once the initiative side leaves its lower half |
| `Router.Signals.Prepare` | networkinterface/MessageRouter.cpp:111-123 | a new block and its sender under a number: the sender that was there is destroyed, which breaks its channel unless it was used; no other block changes |
| `Router.Signals.Notify` | networkinterface/MessageRouter.cpp:125-138 | a value is taken exactly by a sender that is there and not used up, and is then what that sender's channel holds: by a run of the one-shot channel |
| `Router.Signals.Erase` | networkinterface/MessageRouter.cpp:83-89 | erasing destroys the sender, which breaks its channel unless it was used |
| `Router.Signals.StartWait` | inc/oneshot.hpp:273-332 | a wait on a receiver is told what its channel has, and changes nothing else on any socket |
| `Router.Signals.Get` | inc/oneshot.hpp:356-364 | after a wait that succeeded, get() is the value that the channel holds |
| `Router.Signals.DropReceiver` | inc/oneshot.hpp:334-348 | a receiver that leaves after its sender leaves no block behind |
| `Router.MessageRouter.PrepareReqRep` | networkinterface/networkinterface.cpp:111-124 | both maps or neither, with two new blocks nobody waits on, and nothing on other sockets |
| `Router.MessageRouter.CanReqRepOn` | networkinterface/MessageRouter.cpp:176-187 | free in both maps |
| `Router.MessageRouter.NotifyRecvNetRep` | networkinterface/MessageRouter.cpp:125-138 | a reply is handed to a sender of its own socket exactly if one that is not used up has its number; other sockets and receivers that have waited are not disturbed |
| `Router.MessageRouter.NotifySendNetComplete` | networkinterface/MessageRouter.cpp:154-166 | the same for the outcome of a send |
| `Router.MessageRouter.NotifyRecvAppRep` | networkinterface/MessageRouter.cpp:140-152 | the same for the application's reply |
| `Router.MessageRouter.FinishReqRep` | networkinterface/MessageRouter.cpp:83-89 | both senders go, and receivers keep what they were told |
| `Router.MessageRouter.PrepareAppRep` | networkinterface/networkinterface.cpp:141-149 | refused for a number that has an entry |
| `ReqRep.NextInv` | networkinterface/ChannelCombine.h:139-172 | the invariant of all calls, maps, channels, queue and packets holds after every step |
| `ReqRep.RunInv` | networkinterface/ChannelCombine.h:139-172 | so it holds in every state of every run |
| `ReqRep.AnsweredOnce` | networkinterface/ChannelCombine.h:95-98 | a packet answers at most one call, a call is answered by at most one packet, and the numbers agree |
| `ReqRep.RepliesAreReal` | networkinterface/ChannelCombine.h:162-171 | a returned reply is the body of the packet that answered the call, whose message was sent |
| `ReqRep.RegisteredWhilePending` | networkinterface/MessageRouter.cpp:176-187 | pending calls have different numbers, and both maps hold these and no others |
| `ReqRep.RegisteredWhenSent` | networkinterface/ChannelCombine.h:149-154 | a request is registered before it is sent, its outcome reaches it alone, and no wait of it is broken |
| `ReqRep.AnswerIsReturned` | networkinterface/ChannelCombine.h:162-171 | a call that was sent and answered can go on, returns the answer and leaves no entry |
| `ReqRep.RefusedExactly` | networkinterface/networkinterface.cpp:113-117 | a call is refused exactly if a pending one began a whole number of periods before |
| `ReqRep.SentExactly` | networkinterface/ChannelCombine.h:154-171 | a call goes on from its first wait to its second exactly if its message was sent, and returns a reply exactly if it was; otherwise it returns none |
| `ReqRep.FirstInFirstOut` | networkinterface/MessageRouter.cpp:202-208 | messages are taken in the order in which they were queued, and go out in that order |
| `ReqRep.LostExactly` | networkinterface/LocalNetManager.cpp:67-84 | a call is left waiting for its send, with nothing under way and nothing told, exactly if its message met no channel |
| `ReqRep.WaitsForSend` | networkinterface/ChannelCombine.h:154 | a call that waits for its send has its message on the way, or can go on, or was lost so, and no two of these |
| `ReqRep.WaitsForReply` | networkinterface/ChannelCombine.h:162 | a call that waits for its reply can go on exactly if a packet answered it |
| `ReqRep.RunPersists` | networkinterface/ChannelCombine.h:139-172 | along a run, what came in, whom it answered, what was sent and what was returned is never changed |
| `ReqRep.DeliveredExactly` | networkinterface/ChannelCombine.h:95-98 | in every state of every run, a packet is taken as the reply to a call exactly if the call is pending, drew the packet's number and was not answered before |
| `ReqRep.RequestExactly` | networkinterface/ChannelCombine.h:98-117 | and it is a request of the other side exactly if no such call drew its number |
| `ReqRep.PeerRequestTaken` | networkinterface/ChannelCombine.h:95-98 | the other side's k-th request is taken for a reply exactly if some waiting call's draw gives the same number |
| `ReqRep.MeetExactly` | networkinterface/ChannelCombine.h:186-213 | which draws of one side can give a number of the other at all |
| `ReqRep.MixUpExactly` | networkinterface/ChannelCombine.h:95-98 | some run takes the other side's k-th request for the reply to a call exactly if the two draws give the same number |
| `ReqRep.PeerRequestsStayRequests` | networkinterface/ChannelCombine.h:95-98 | so no run does before the initiative side has left the lower half of the numbers |
| `ReqRep.MixUpHappens` | networkinterface/ChannelCombine.h:95-98 | a run of two steps that does |
| `ReqRep.ServedExactly` | networkinterface/networkinterface.cpp:141-149 | a request of the other side is served exactly if its number never came before on the socket |
| `ReqRep.RefusedTheSecondTime` | networkinterface/networkinterface.cpp:141-149 | a number that comes twice, and is refused although its first request was answered |
| `Connection.ChannelCombine.constructor` | networkinterface/ChannelCombine.h:59-75 | a new channel on a router with nothing under its socket is the machine's first state |
| `Connection.ChannelCombine.BeginCall` | networkinterface/ChannelCombine.h:139-152 | reqrep() up to its first suspension, on the counter and the router's maps, is the machine's step, and leaves other sockets alone |
| `Connection.ChannelCombine.EnqueueCall` | networkinterface/ChannelCombine.h:153-154 | so is going on to wait for the outcome of the send |
| `Connection.ChannelCombine.SendingStep` | networkinterface/MessageRouter.cpp:202-208 | so are the sending coroutine's steps |
| `Connection.ChannelCombine.NotifySentStep` | networkinterface/LocalNetManager.cpp:193-204 | so is telling the outcome of a send, which always finds the call's own sender |
| `Connection.ChannelCombine.ReceiveStep` | networkinterface/ChannelCombine.h:93-98 | so is a turn of the receive loop |
| `Connection.ChannelCombine.ResumeSentStep` | networkinterface/ChannelCombine.h:154-162 | the first wait's success is exactly when the machine lets the call go on; it goes on to wait, or ends |
| `Connection.ChannelCombine.ResumeReplyStep` | networkinterface/ChannelCombine.h:162-172 | the second wait's success likewise, and what get() gives is what the machine returns |
| `Connection.ChannelCombine.EndCall` | networkinterface/ChannelCombine.h:158-172 | the entries go from both maps and both blocks are deleted, once, with their payloads destroyed |
| `Connection.ChannelCombine.BlocksAgree` | networkinterface/ChannelCombine.h:154-163 | a wait has succeeded exactly if the machine lets its call go on, and was told nothing otherwise; a call that returned left no block |
| `Connection.ReceiveApart` | networkinterface/MessageRouter.cpp:125-138 | a packet for one socket leaves another socket on the same router where it was |

## Left out

- `array_hash`: its source is not part of this model; a leaf is an ordered sequence of pairs with distinct suffixes, a new pair may go anywhere, load factors and bucket counts are left out.
- `HtrieSerial`: the maximal load factor in the header, sizes that do not fit, and streams with an unknown node type. That a leaf's own form can be read back is an assumption: its pairs come back in any order.
- The rollback of `burst` when moving values throws, copying, moving and swapping trees, and the range form of `erase`.
- Move-only and copy-only variants of `burst` (`inc/tsl/htrie_hash.h:1684-1714`, `1767-1817`) differ in how values travel, which has no counterpart here.
- Memory orders and fences of the one-shot channel: steps are sequentially consistent. Allocators, executors, work guards and the dispatch of handlers are left out too. The receiver and the cancellation of its waits are one sequential actor.
- Big-endian branches, the seeds for SHA-224 behind a preprocessor switch, and the hexadecimal form of the digests; `hmac.h` is a corollary of the streaming results.
- `Crc32.GenerateTables`: the literal table in the source is taken to be what the generator in its comment produces; the entries of `Crc32.FirstRow` and `Crc32.FirstColumn` are compared one by one.
- `m_numBytes` of Keccak and SHA-3 is counted but never read, and is left out.
- The branch of `processBuffer` for a full buffer (MD5, SHA-1, SHA-256) cannot be reached, since the buffer never fills a block between calls; it has no counterpart.
- Md5.T: the table of sines is that of the code; that it holds sines is not proved.
- `Framing.TcpChannel`: a read may bring any number of bytes, where the source's read buffer holds 512. That an int overflow wraps is an assumption, since the language leaves it open.
- The logging in `sendPack`, which looks at the body from its ninth byte on.
- `ReqRep`: a message goes on the wire in one step, so frames of two sends on one socket are assumed not to interleave; the source sends header and body with a suspension between, and replies to the other side are sent by other coroutines (`networkinterface/ChannelCombine.h:109`). `Framing.InterleavedFrames` says what becomes of two frames that do.
- `reqrep` finishes inside an `assert`, so in a build without assertions the entries are never erased; the model is of the build with them. A refused call ends at the failed assertion. Drawing a number is one step, as on a single-threaded context.
- `Connection.ChannelCombine`: between suspensions a coroutine runs alone, so a call of a one-shot channel is there a run of its steps without steps of the other side in between; `Oneshot` covers the others. The row of waits for the application's replies (`ReqRep.AppRun`) is on values, by the same `Prepared` and `Notified` that `Router.MessageRouter.PrepareAppRep` and `NotifyRecvAppRep` ensure. That other sockets are left alone is stated as a frame of every step, and spelled out for one (`Connection.ReceiveApart`).
- The socket number counter, the other kinds of channel, and how a request of the other side reaches its handler.
- `parsecmd`, `packcmdrep` and the base64 functions of `Utils`, the older stream handlers and pack dealers, JSON, SQL, HTTP, configuration and file watching.
