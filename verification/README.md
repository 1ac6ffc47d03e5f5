# AnnChain, verified models

AnnChain keeps accounts in a Merkle Patricia trie over a reference-counted node cache, encodes
everything in RLP, collects transactions in a pool and executes them against a gas pool. This
project models that machinery in Dafny and proves what it is relied on for.

| files | part of the system |
|---|---|
| `NodeStore`, `TrieDatabase` | the trie node cache: reference counts, cascading removal, the flush-list, capping, committing, and the disk behind it |
| `MerkleTrie`, `HexPrefix` | the trie as a mathematical object: a canonical map from nibble keys to values; key encodings |
| `TrieNode`, `LazyTrie`, `TrieHasher`, `TrieHandle`, `StoredForm` | the trie as the code holds it: partly in memory, embedded, collapsed, or behind hashes |
| `KeptTrie`, `TrieCommit` | commits into the node cache, and a committed trie through it and back |
| `TrieProof`, `TrieIterator` | Merkle proofs and ordered iteration with seeking |
| `SyncLedger`, `TrieSync`, `SyncedTrie` | the download scheduler with its dependency counts |
| `Rlp`, `RlpEncoder`, `RlpStream` | the recursive encoding, the slice parser, the two-pass encoder, the stream decoder |
| `TxSortedMap`, `TxList`, `TxPriced` | the pool's lists and its lazily cleaned price heap |
| `PoolPlaces`, `PoolNonces`, `PoolSteps`, `PoolRuns`, `PoolReturns`, `TxPool`, `PoolGaps` | the transaction pool: where transactions are, how nonces move, single steps, whole operations, transactions that come back, and two resets that go wrong |
| `Feed` | one-to-many broadcast |
| `Gas` | gas accounting for messages |
| `Common` | what several of them share |

`dafny verify dfyconfig.toml` checks the whole project.

## Main results

- **Garbage collection is safe and complete.** Every operation of the node cache keeps exact
  reference counts, an acyclic order and a flush-list with children before parents. From these it
  follows that nothing reachable from a held root is ever lost (`NothingLost`), that nothing
  unreachable stays (`NothingLeaked`), and that the disk is closed under children after every
  single batch write, also when a later one fails (`WriteBatch`, `CommitCache`, `CapCache`), so that a
  database restarted after a crash finds every root whose commit had ended (`Restart`). Over any
  run of operations, whatever lies below a root referenced more often than dereferenced is found with
  its content (`RunKeeps`). Commits insert a trie as a whole (`CommitTo`), so a committed trie that is
  kept can be reopened by its root (`CommitAndHold`, `ReopenCommitted`).
- **The trie is a map, however it is held.** Insertion and deletion keep a minimal shape, minimal
  tries with equal contents are equal (`Canonical`), and any run of updates is a plain map
  (`TrieIsMap`, `HistoryIndependent`). The code's nodes, in any mix of loaded, embedded, cached and
  stored, agree with it through reads, updates, hashing, unloading, committing and reopening
  (`TryGetAgrees`, `InsertAgrees`, `DeleteAgrees`, `HashAgrees`, class `TrieObject`).
- **Proofs are exact.** `VerifyProof` ends without error exactly when all elements are provided, and
  then returns what the trie has, present or absent.
- **Iteration is exact**: from any start key, every entry not before it, once and in order, also
  across missing nodes that are found later (`Iterate`).
- **Downloads are complete**: for every order of genuine deliveries each node is stored after all
  it refers to. Over any run, no open request means that the whole trie is there if and only if no
  raw entry hides part of it (`Download`, `DownloadedTrie`).
- **RLP is a bijection** that the slice parser, the two-pass encoder and the stream decoder all agree on.
- **The pool keeps every transaction in exactly one place**, the pending nonces of every account
  are exactly the interval from the state's nonce to the expected one, nothing executable is left
  in a queue, truncation cuts all lists to one level, and local accounts lose only what is too old,
  cannot be paid or is outbid. Which accounts come out of a reset in order is stated exactly, for those
  whose nonce has fallen where all that comes back has room (`Reset`, `FallenReset`).
- **A broadcast reaches every subscriber exactly once**, unless it is removed first, for every
  interleaving of sends, subscriptions and removals.
- **Gas is conserved** over any sequence of messages: accounting adds nothing to what the machine does
  to the sum of balances, and takes nothing away from it.

## Where the code and its promises differ

- Pending nonces can have a gap after a reset that reinjects transactions. `demoteUnexecutables` looks
  only at the state's own nonce (eth/core/tx_pool.go:1145): from an empty pool, `ReorgLeavesGap` gets to
  pending nonces 5 and 7 at state nonce 5. `RaisedUnbroken` gives the exact condition on a list, and
  `AlwaysGapless` shows that it holds for every list without gaps and every new state. Where all that comes
  back has room, `FallenReset` gives the condition on what is known before the reset: the state's nonce is
  among what comes back, one between it and the old nonce is not, and the old nonce stays pending.
- Even an account whose nonce has not fallen can come out of a reset in disorder. When a pending transaction
  that the new state has passed makes room for one that comes back, the pool expects its nonce
  (eth/core/tx_pool.go:924), which is then below the state's: new transactions of the account wait until
  the next reset (`ReinjectionSinksNonce`). The safeguard against this (eth/core/state/managed_state.go:129-134)
  has no effect, since setting a nonce also writes the copied state it compares with (`NeverLifted`). `Reset`
  states exactly which accounts are affected; none whose nonce is the same, and none when all that comes
  back has room.
- The comment on `Ready` promises all lower nonces (eth/core/tx_list.go:175). The loop returns the first
  consecutive run; the model follows the loop.
- The stale counter of the price heap can go wrong. A transaction that is removed and added again before its
  old entry is cleaned up has two entries (`PutAgain`), and discarding it twice spoils the counter and leaves
  less room than asked for (`DiscardMiscounts`). `SetGasPrice` keeps the counter right if and only if no
  transaction it removes has two entries. `Discard` counts entries from the cheapest on: the counter goes
  wrong if two entries of one transaction are among those, and only if they may be; where equally cheap ones
  leave it open, the order of the heap decides (`ExactMiscount`, `MakeRoom`).
- A raw entry of the download scheduler is stored without a look at it. If it is a trie node, what it refers
  to may be missing although no request is open (`RawHides`); the exact condition is in `DownloadedTrie`.
- When a leaf callback fails, the scheduler has already taken the data of the node (eth/trie/sync.go:193-199), and
  a second delivery of it is refused, although what it refers to is not requested (`Deliver`).
- `insert` adds the size of an entry modulo 65536 (eth/trie/database.go:344) while removal subtracts
  the entry's size plus 32. The invariant carries the number of such wraps, so the tracked size is exact as
  long as no entry exceeds 65503 bytes.
- A node reference of exactly 32 bytes is decoded as an embedded node (eth/trie/node.go:201), although
  its comment asks for less than 32; the encoder never produces one.
- A local transaction that replaces a pending one does not make its account local
  (eth/core/tx_pool.go:670-693); `Add` states exactly when an account becomes local.
- A message that is refused after it has paid for its gas (too little for its data, or no balance for its
  value) keeps the sender charged and the gas out of the pool (`Conserved`); undoing that is left to the caller.

## Model

| member | source | states |
|---|---|---|
| `NodeStore.NothingLost` | eth/trie/database.go:471-556 | garbage collection is safe: in every state that satisfies the invariant, each node on a chain of references from a root the meta-root holds is cached or on disk |
| `NodeStore.NothingLeaked` | eth/trie/database.go:513-556 | garbage collection is complete: when no tracked node has a zero count, every cached node that is not on disk yet is reached from a held root by a chain that the lemma returns |
| `NodeStore.Condemn` | eth/trie/database.go:513-556 | taking a node nobody references out of the counted ones turns its references into debt and keeps exact counts, acyclicity and order |
| `NodeStore.Delete` | eth/trie/database.go:550-554 | a condemned node can be deleted: nothing live refers to it, and the invariant holds without it |
| `NodeStore.Pay` | eth/trie/database.go:529-535 | lowering a count by one pays one debt; a count that reaches zero means nobody holds the node |
| `NodeStore.Insert` | eth/trie/database.go:320-345 | inserting a node whose children are stored or cached keeps every invariant, with counts exactly raised by the multiplicity of each child |
| `NodeStore.Link` | eth/trie/database.go:471-485 | recording a reference keeps every invariant |
| `NodeStore.Release` | eth/trie/database.go:513-522 | giving up one reference of the meta-root leaves exactly one reference owed |
| `NodeStore.Write` | eth/trie/database.go:595-641 | writing a batch whose children are on disk or in it keeps every invariant, and the disk stays closed under children |
| `NodeStore.RunHolds` | eth/trie/database.go:463-556 | over any run of operations a root that is available whenever it is referenced is held at least as often as it has been referenced more than dereferenced, or is on disk |
| `NodeStore.RunAnchors` | eth/trie/database.go:320-782 | over any run in which its first node stays held or stored, every node of a chain of references stays cached or stored |
| `TrieDatabase.Childs` | eth/trie/database.go:175-205 | the hashes a cached node refers to, explicit ones and those found in its content, with multiplicity |
| `TrieDatabase.Unlink` | eth/trie/database.go:536-549 | unlinking from the doubly linked flush-list gives the list without that node and leaves all data alone |
| `TrieDatabase.DereferenceFrom` | eth/trie/database.go:513-556 | the recursive cascade terminates, pays exactly one reference and keeps every invariant; no entry keeps a count that fell to zero; what stays keeps its content and its explicit references, but for the one given up |
| `TrieDatabase.RemoveCascading` | eth/trie/database.go:534-555 | removing a node that lost its last reference, with everything only it held; what stays keeps its content and its explicit references |
| `TrieDatabase.InsertNode` | eth/trie/database.go:320-345 | a new node is appended to the flush-list and counted in its children; a known one changes nothing; all other entries keep content and explicit references; the 16-bit size addition is kept as it is |
| `TrieDatabase.ReferenceNode` | eth/trie/database.go:471-485 | only the meta-root may repeat a reference; the 16-bit counter is incremented below its limit |
| `TrieDatabase.CommitNode` | eth/trie/database.go:730-752 | children go into the batch before their parent, whatever the depth, and batches may be written at any moment |
| `TrieDatabase.WriteBatch` | eth/trie/database.go:603-611 | after every single batch write, also one followed by a failure, the disk is closed under children |
| `TrieDatabase.FlushOldest` | eth/trie/database.go:594-621 | the flush-list visits each node once, children before parents, so the disk is closed at every point |
| `TrieDatabase.CapCache` | eth/trie/database.go:560-657 | ends below the limit or with an empty cache; only nodes that are on disk have left the cache, and the others keep content and explicit references; a failed write leaves the cache alone |
| `TrieDatabase.Uncache` | eth/trie/database.go:758-782 | removes only nodes that are on disk, with exact bookkeeping of the flush-list and the size; what stays keeps content and explicit references |
| `TrieDatabase.CommitCache` | eth/trie/database.go:663-727 | writes a node and all below it, then uncaches nodes that are already written, and no others; what stays keeps content and explicit references |
| `TrieDatabase.Retrievable` | eth/trie/database.go:393-420 | what a held root reaches is found, and is what was first inserted under that hash |
| `TrieDatabase.StillFound` | eth/trie/database.go:393-420 | whatever lies below a root that is held or on disk, by the content inserted, is found with that content |
| `TrieDatabase.RunKeeps` | eth/trie/database.go:320-782 | over any run of insertions, references, dereferences, caps and commits: whatever lies below a root referenced more often than dereferenced is found at the end with the content inserted |
| `TrieDatabase.Database.constructor` | eth/trie/database.go:281-298 | an empty cache with its meta-root, over any disk whose nodes have their children there, satisfies every invariant |
| `TrieDatabase.Database.Node` | eth/trie/database.go:393-420 | reading any node reachable from a held root gives the content inserted under its hash |
| `TrieDatabase.Database.Insert` | eth/trie/database.go:320-345 | keeps the invariant and is one step of a run; the node is cached under its hash, and every explicit reference stays as it was |
| `TrieDatabase.Database.Reference` | eth/trie/database.go:463-485 | keeps the invariant and is one step of a run; exactly one reference more, where one is recorded at all |
| `TrieDatabase.Database.Dereference` | eth/trie/database.go:488-556 | the meta-root holds exactly one reference to the root fewer, and its other references are the same; nothing with a zero count stays behind; every surviving entry keeps content and explicit references; the invariant is kept |
| `TrieDatabase.Database.Cap` | eth/trie/database.go:560-657 | the invariant, the limit or an empty cache, and only stored nodes gone; the references of the meta-root and of all surviving entries are the same; on failure the cache is as before; the images of the disk so far stay on record |
| `TrieDatabase.Database.Commit` | eth/trie/database.go:663-727 | the node is on disk, and in its last image, and no longer cached, and only stored nodes are gone; the references of the meta-root and of all surviving entries are the same; on failure the cache is as before |
| `TrieDatabase.Restart` | eth/trie/database.go:281-298 | after a crash, which leaves the disk as it was after one of the batch writes, a new database over it satisfies every invariant and finds, with its content, whatever lies below a root that was on disk then or before, so below every root whose commit had ended |
| `TrieDatabase.HistoryMore` | eth/trie/database.go:603-611 | each image of the disk is closed under children and holds what all images before it held |
| `Rlp.PutIntMinimal` | eth/rlp/encode.go:585-640 | the unrolled switch writes the minimal big-endian form of every 64-bit integer |
| `Rlp.IntSize` | eth/rlp/encode.go:643-649 | the shifting loop counts the bytes of that form |
| `Rlp.SplitWhole` | eth/rlp/raw.go:39-45 | an encoded value splits into its own kind and content, whatever follows it |
| `Rlp.SplitIsCanonical` | eth/rlp/raw.go:86-156 | what is accepted, put together again, is the input: sizes are canonical and single bytes are not wrapped |
| `Rlp.ParseEncode` | eth/rlp/raw.go:39-156 | recursive use of the parser undoes the encoding, whatever follows |
| `Rlp.ParseIsCanonical` | eth/rlp/raw.go:39-156 | recursive use of the parser accepts only encodings |
| `Rlp.DecodingIsExact` | eth/rlp/raw.go:39-156 | decoding succeeds exactly on encodings of one item, so the encoding is a bijection |
| `Rlp.EncodingIsPrefixFree` | eth/rlp/encode.go:80-93 | no encoding is a proper prefix of another |
| `Rlp.CountValues` | eth/rlp/raw.go:74-84 | the loop counts the values of a list's content, or fails where splitting does |
| `Rlp.ValuesOfList` | eth/rlp/raw.go:74-84 | the content of an encoded list has as many values as the list has items |
| `RlpEncoder.RenderSplit` | eth/rlp/encode.go:230-246 | strings with interleaved headers can be rendered in two parts at any header |
| `RlpEncoder.GrownList` | eth/rlp/encode.go:211-224 | closing a list turns what was rendered since it was opened into the encoding of a list |
| `RlpEncoder.EncBuf.PutString` | eth/rlp/encode.go:201-209 | appends the encoding of a string |
| `RlpEncoder.EncBuf.OpenList` | eth/rlp/encode.go:211-215 | remembers offset and pending header size |
| `RlpEncoder.EncBuf.CloseList` | eth/rlp/encode.go:217-224 | sets the exact size of the list, headers included |
| `RlpEncoder.EncBuf.Put` | eth/rlp/encode.go:181-224 | for every nesting the buffer renders to what it was, followed by the recursive encoding |
| `RlpEncoder.ToBytes` | eth/rlp/encode.go:230-246 | one buffer of the exact size, filled front to back, is the rendering |
| `RlpEncoder.ToWriter` | eth/rlp/encode.go:248-270 | a writer gets the rendering, or a prefix of it when a write fails |
| `RlpEncoder.EncReader.Next` | eth/rlp/encode.go:306-337 | hands out the next piece without losing or repeating anything |
| `RlpEncoder.EncReader.Read` | eth/rlp/encode.go:281-302 | reads exactly as many bytes as are asked for or left, and reports the end exactly when nothing is left |
| `RlpEncoder.ReadAll` | eth/rlp/encode.go:281-337 | with any sequence of buffer sizes the reader gives the encoding, all of it once the sizes suffice |
| `RlpEncoder.EncodeToBytes` | eth/rlp/encode.go:97-105 | the two-pass encoder computes the recursive encoding |
| `RlpStream.TagAgrees` | eth/rlp/decode.go:902-962 | stream tags with size and canonicity checks accept exactly what the slice parser accepts |
| `RlpStream.Stream.constructor` | eth/rlp/decode.go:824-856 | a stream over a byte slice with its length as input limit |
| `RlpStream.Stream.WillRead` | eth/rlp/decode.go:1016-1034 | a read is allowed exactly if it stays within the innermost list and the input |
| `RlpStream.Stream.ReadFull` | eth/rlp/decode.go:990-1003 | reads the next bytes of the window |
| `RlpStream.Stream.ReadUint` | eth/rlp/decode.go:964-988 | the big-endian value, refused for a leading zero in more than one byte |
| `RlpStream.Stream.ReadTag` | eth/rlp/decode.go:902-962 | the tag of the window, kind and size, or an error exactly when there is none |
| `RlpStream.Stream.NextKind` | eth/rlp/decode.go:869-900 | end of list exactly at the end; otherwise the kind, unless the size exceeds what encloses it |
| `RlpStream.Stream.ReadBytes` | eth/rlp/decode.go:648-669 | the content of a byte or string, refused when a single byte should have stood for itself |
| `RlpStream.Stream.List` | eth/rlp/decode.go:757-769 | the content of the list becomes the window |
| `RlpStream.Stream.ListEnd` | eth/rlp/decode.go:773-788 | the enclosing list moves past the list that ends |
| `RlpStream.Stream.DecodeInterface` | eth/rlp/decode.go:511-533 | decodes exactly what the recursive parser accepts, to the same item, and keeps position within size in every frame |
| `RlpStream.Stream.DecodeListSlice` | eth/rlp/decode.go:323-336 | a list decodes exactly when its content is a sequence of values |
| `RlpStream.Stream.DecodeElems` | eth/rlp/decode.go:338-365 | the element loop ends with all elements of the innermost list |
| `RlpStream.DecodeBytes` | eth/rlp/decode.go:136-146 | succeeds exactly on encodings without trailing bytes and returns the item that was encoded |
| `MerkleTrie.InsertWf` | eth/trie/trie.go:216-283 | insertion keeps the minimal shape |
| `MerkleTrie.GetInsert` | eth/trie/trie.go:216-283 | after an insertion the key has the value and every other key what it had |
| `MerkleTrie.DeleteWf` | eth/trie/trie.go:307-414 | deletion keeps the minimal shape: short nodes are merged, and full nodes keep at least two children |
| `MerkleTrie.GetDelete` | eth/trie/trie.go:307-414 | after a deletion the key is absent and every other key has what it had |
| `MerkleTrie.Canonical` | eth/trie/trie.go:216-414 | two tries of minimal shape with the same contents are equal |
| `MerkleTrie.TrieIsMap` | eth/trie/trie.go:198-302 | any run of updates and deletions is a plain map with minimal shape |
| `MerkleTrie.HistoryIndependent` | eth/trie/trie.go:198-302 | the trie depends on the contents only, not on the order of the updates |
| `HexPrefix.NibblesOfPack` | eth/trie/encoding.go:65-94 | packing nibbles loses nothing |
| `HexPrefix.PackOfNibbles` | eth/trie/encoding.go:65-94 | unpacking bytes loses nothing |
| `HexPrefix.ExpandCompact` | eth/trie/encoding.go:37-63 | expanding undoes the compact form |
| `HexPrefix.CompactExpand` | eth/trie/encoding.go:37-63 | compacting undoes expanding if and only if the first nibble is below four and the padding of an even flag is zero |
| `HexPrefix.KeysPart` | eth/trie/encoding.go:65-74 | no key is a prefix of another, thanks to the terminator |
| `HexPrefix.DecodeNibbles` | eth/trie/encoding.go:90-94 | fills the buffer in place with the packed nibbles and touches nothing else |
| `HexPrefix.KeybytesToHex` | eth/trie/encoding.go:65-74 | the terminated nibbles of the key |
| `HexPrefix.HexToCompact` | eth/trie/encoding.go:37-52 | the compact form, with odd runs starting in the flag byte |
| `HexPrefix.HexToKeybytes` | eth/trie/encoding.go:78-88 | undoes the conversion to nibbles |
| `HexPrefix.CompactToHex` | eth/trie/encoding.go:54-63 | undoes the compact form |
| `HexPrefix.CommonPrefix` | eth/trie/encoding.go:97-108 | the length of the common prefix |
| `TrieNode.DecodeEnc` | eth/trie/node.go:129-147 | decoding the encoding of any node gives the node with its children as references |
| `TrieNode.DecodeShortEnc` | eth/trie/node.go:149-169 | a short node is decoded, with its value or its child |
| `TrieNode.DecodeFullEnc` | eth/trie/node.go:171-188 | a full node is decoded, with its sixteen children and its value |
| `TrieNode.DecodeRefItem` | eth/trie/node.go:192-215 | a reference decodes to the embedded node, the hash or nothing |
| `TrieNode.DecodeChildren` | eth/trie/node.go:171-188 | the loop over sixteen children computes what the recursion specifies |
| `LazyTrie.ResolveRep` | eth/trie/trie.go:430-438 | loading a hash that stands for a trie gives a node that stands for it too |
| `LazyTrie.TryGetAgrees` | eth/trie/trie.go:140-176 | for every mix of loaded, embedded and stored nodes the answer is the trie's, and the expanded node stands for the same trie |
| `LazyTrie.InsertAgrees` | eth/trie/trie.go:216-283 | insertion into any such mix gives a node for the trie after the insertion; unchanged values change nothing |
| `LazyTrie.DeleteAgrees` | eth/trie/trie.go:307-414 | deletion likewise, with the remaining child loaded where two nodes merge |
| `LazyTrie.FindLone` | eth/trie/trie.go:356-366 | the loop finds the one remaining child, or that there are several |
| `TrieHasher.HashAgrees` | eth/trie/hasher.go:77-119 | hashing gives the reference of the trie; the cached node stands for the same trie; with a database every large node is stored under its hash; unloading only affects clean old nodes |
| `TrieHasher.ChildrenAgree` | eth/trie/hasher.go:124-161 | the collapsed node encodes to the encoding of the trie |
| `TrieHasher.StoreFits` | eth/trie/hasher.go:166-210 | small nodes are embedded, others stored under the hash of their encoding |
| `TrieHasher.HashLoop` | eth/trie/hasher.go:142-155 | the loop over sixteen children computes what the recursion specifies |
| `TrieHasher.RepGrows` | eth/trie/hasher.go:166-210 | a larger store takes nothing away from what nodes stand for |
| `TrieHandle.TrieObject.constructor` | eth/trie/trie.go:57-63 | the zero value is the empty trie, over any store |
| `TrieHandle.TrieObject.Open` | eth/trie/trie.go:95-110 | opening by root gives the trie with that root, whatever is loaded later; with the trie stored it does not fail |
| `TrieHandle.TrieObject.TryGet` | eth/trie/trie.go:131-138 | the value of the map, present or absent, unless a node is missing |
| `TrieHandle.TrieObject.TryUpdate` | eth/trie/trie.go:198-214 | the map with the key set, or removed for an empty value; an error leaves the trie alone |
| `TrieHandle.TrieObject.TryDelete` | eth/trie/trie.go:294-302 | the map without the key; an error leaves the trie alone |
| `TrieHandle.TrieObject.Hash` | eth/trie/trie.go:446-450 | the root of the trie, which stays the same trie |
| `TrieHandle.TrieObject.Commit` | eth/trie/trie.go:454-465 | the root, with every node of the trie in the store afterwards |
| `StoredForm.CacheAgreesWithDisk` | eth/trie/database.go:209-269 | a cached node encodes to what would be on disk, and expanding it gives what decoding that would give |
| `StoredForm.ReviveGather` | eth/trie/database.go:188-269 | expanding and simplifying again keeps the references |
| `StoredForm.RootIdentifies` | eth/trie/hasher.go:77-210 | for a collision-free hash, equal roots mean equal contents and conversely |
| `KeptTrie.ChildIsGathered` | eth/trie/database.go:188-205 | a child that is referred to by hash is among the references the cache finds in its parent |
| `KeptTrie.CachedOnce` | eth/trie/database.go:209-231 | two nodes whose references are hashes of full length are the same if the cache has the same for them |
| `KeptTrie.NodeIsHashed` | eth/trie/database.go:209-231 | all references of a collapsed node are hashes of full length |
| `KeptTrie.ShowsSome` | eth/trie/database.go:393-420 | every cache and disk is shown by some store, and that is addressed by content if they are |
| `KeptTrie.WholeIsFound` | eth/trie/database.go:393-420 | a committed trie whose root is found in the cache or on disk can be read as a whole, from any store that shows what they hold |
| `KeptTrie.KeptThrough` | eth/trie/database.go:320-782 | over any run of the database, a committed trie whose root has been referenced more often than dereferenced is there as a whole at the end, through garbage collection, capping and committing |
| `KeptTrie.Reopen` | eth/trie/trie.go:95-110 | such a trie is opened by its root hash, and is the trie that was committed |
| `TrieCommit.GatheredNode` | eth/trie/database.go:188-205 | whatever the cache finds in a collapsed node is the hash of a part of the trie that has been stored before |
| `TrieCommit.NodeOnce` | eth/trie/database.go:209-231 | a node is collapsed in one way only, so that a hash never gets a second content |
| `TrieCommit.MayInsert` | eth/trie/hasher.go:166-210 | what the hasher hands to the database may be inserted: children first, no cycles, no second content |
| `TrieCommit.InsertCollapsed` | eth/trie/hasher.go:185-191 | the node is inserted, and what the database has under the number of any node stays that node |
| `TrieCommit.HashInto` | eth/trie/hasher.go:77-119 | hashing with a database computes what hashing without computes, and the database has all that the store has |
| `TrieCommit.EntriesInto` | eth/trie/hasher.go:142-155 | likewise for the loop over sixteen children |
| `TrieCommit.CommitTo` | eth/trie/trie.go:454-465 | the root, with every node of the trie that is referred to by hash, and the root, inserted into the database, collapsed, under its hash; the trie object stands for the same trie |
| `TrieCommit.SuitsHeights` | eth/trie/database.go:320-345 | the heights of tries show that content is acyclic, if no encoding at hand has the hash zero |
| `TrieCommit.Begin` | eth/trie/trie.go:57-63 | an empty trie in front of an empty database meets what commits ask for |
| `TrieCommit.CommitAndHold` | eth/trie/database.go:463-657 | a trie is committed, its root referenced and the cache capped: whatever store shows the database then has the whole trie |
| `TrieCommit.ReopenCommitted` | eth/trie/trie.go:95-110 | a trie that was committed at the start of any run of the database, and whose root was referenced more often than dereferenced in it, is opened by its root hash at the end |
| `TrieProof.Descend` | eth/trie/proof.go:133-155 | as far down as one decoded node goes, the rest of the way is that of the trie |
| `TrieProof.VerifyProof` | eth/trie/proof.go:107-131 | for any content-addressed set of nodes: it ends without error exactly when every element of the proof is there, and then the value is the trie's, present or absent |
| `TrieProof.Collect` | eth/trie/proof.go:38-67 | the first loop collects the nodes on the path of the key |
| `TrieProof.Prove` | eth/trie/proof.go:37-91 | exactly the elements of the proof, less the first `fromLevel`, are put under their hashes |
| `TrieProof.ProofIsComplete` | eth/trie/proof.go:37-91 | what is put from level 0 on is all that the check needs |
| `TrieIterator.EntriesExact` | eth/trie/iterator.go:221-357 | the listing of a trie has exactly what lookups find |
| `TrieIterator.EntriesSorted` | eth/trie/iterator.go:221-357 | the listing is strictly increasing, so nothing is listed twice |
| `TrieIterator.NotBeforeExact` | eth/trie/iterator.go:240-256 | skipping to a key leaves exactly the entries that are not before it |
| `TrieIterator.LeavesAreEntries` | eth/trie/iterator.go:307-343 | the values met in pre-order are the listing |
| `TrieIterator.NextChild` | eth/trie/iterator.go:307-343 | the first child after the one visited last, or none exactly when nothing is left below |
| `TrieIterator.NodeIterator.constructor` | eth/trie/iterator.go:135-142 | all nodes and all entries of the trie are still to come |
| `TrieIterator.NodeIterator.Peek` | eth/trie/iterator.go:259-293 | the next node in pre-order, below the current one or beyond it; nothing is visited yet |
| `TrieIterator.NodeIterator.Push` | eth/trie/iterator.go:345-351 | the node goes on the stack, and what is left is what is below it and what was left before |
| `TrieIterator.NodeIterator.Pop` | eth/trie/iterator.go:353-357 | the parent's path and place are restored |
| `TrieIterator.NodeIterator.Seek` | eth/trie/iterator.go:240-256 | stops before the first node that is not before the key; entries before the key are left behind and no others; a missing node leaves the seek to be resumed |
| `TrieIterator.NodeIterator.Next` | eth/trie/iterator.go:221-238 | what is due is what this node adds and what is due after it; an error loses nothing |
| `TrieIterator.StartAt` | eth/trie/iterator.go:135-142 | from any start key exactly the entries not before it are due |
| `TrieIterator.Iterator.Next` | eth/trie/iterator.go:45-57 | the first entry that is due, with the bytes its path stands for, or the end exactly when nothing is due |
| `TrieIterator.LeafKey` | eth/trie/iterator.go:162-169 | the key whose nibbles the path is, if there is one |
| `TrieIterator.Iterate` | eth/trie/iterator.go:45-57 | a whole iteration from a start key gives exactly the entries not before it, in order and with their keys; a prefix of them when a node is missing |
| `SyncLedger.Finish` | eth/trie/sync.go:313-330 | finishing a request that waits for nothing keeps every count equal to the outstanding links, with one notice owed per waiting parent |
| `SyncLedger.Notify` | eth/trie/sync.go:320-328 | a notice lowers exactly one count |
| `SyncLedger.Announce` | eth/trie/sync.go:206-209 | raising a count announces links before they are made |
| `SyncLedger.AddLink` | eth/trie/sync.go:238-247 | linking a request to one more parent, shared and repeated children included |
| `SyncLedger.Progress` | eth/trie/sync.go:170-212 | while requests are open, one of them still lacks its data |
| `TrieSync.Finalize` | eth/trie/sync.go:313-330 | the recursive commit moves a request and whatever it completes into the batch, each only after all it refers to |
| `TrieSync.Sync.constructor` | eth/trie/sync.go:82-91 | a scheduler for a root over a database closed under references; exactly a root that is not empty is wanted |
| `TrieSync.Sync.AddSubTrie` | eth/trie/sync.go:94-123 | the root is known, requested or empty, a parent waits for it, and it is wanted from then on |
| `TrieSync.Sync.AddRawEntry` | eth/trie/sync.go:129-156 | likewise for an entry that is stored without a look at it, whatever it contains |
| `TrieSync.Sync.Children` | eth/trie/sync.go:251-308 | every hash child is found in the database or the batch, or is to be requested, and whatever leaf callbacks ask for is wanted; it fails if and only if a callback fails |
| `TrieSync.Sync.Deliver` | eth/trie/sync.go:172-209 | each error exactly in its case; genuine data is accepted once and never lost; errors change nothing, but for that of a leaf callback, which leaves the request open; nothing wanted is forgotten, and what callbacks ask for is wanted |
| `TrieSync.Sync.Process` | eth/trie/sync.go:170-212 | for every order of genuine deliveries all data is accepted up to the first error, which is that of the first item refused; nothing wanted is forgotten; after a failed leaf callback the one request is open, and nothing else is in disorder |
| `TrieSync.Sync.Missing` | eth/trie/sync.go:159-165 | hands out queued hashes, each as often as it was queued; with enough room all open requests have been handed out |
| `TrieSync.Sync.Commit` | eth/trie/sync.go:216-228 | writes in order of completion, so that the database is closed under references after any number of writes |
| `TrieSync.Sync.Done` | eth/trie/sync.go:231-233 | no open request means that everything wanted, sub-tries and raw entries of callbacks included, is present, closed under references but for raw entries |
| `TrieSync.Sync.Unfinished` | eth/trie/sync.go:159-212 | an open request means that some data is still to come, and is queued or handed out |
| `SyncedTrie.DownloadedTrie` | eth/trie/sync.go:170-233 | when the scheduler is done, the whole trie below a wanted root is there if and only if no node of it that was stored as a raw entry lacks what it refers to |
| `SyncedTrie.WholeTrie` | eth/trie/sync.go:251-308 | a root in a store has its whole trie there, if all that stored nodes of the trie refer to is there |
| `SyncedTrie.Download` | eth/trie/sync.go:82-233 | any run from the constructor through requests, genuine deliveries in any order and writes that may fail, up to the first leaf callback that fails: when no request is open at its end the trie is complete, but for what raw entries hide |
| `SyncedTrie.RawHides` | eth/trie/sync.go:94-156 | a raw entry that is a trie node hides its children: with no request open, one of them is missing |
| `TxSortedMap.SortedMap.Put` | eth/core/tx_list.go:73-79 | map, heap and cache agree, with the transaction under its nonce |
| `TxSortedMap.SortedMap.Forward` | eth/core/tx_list.go:84-98 | removes exactly the lower nonces, in order, and keeps the cache sorted |
| `TxSortedMap.SortedMap.Filter` | eth/core/tx_list.go:102-123 | splits by the predicate; the heap is rebuilt and the cache dropped when something is removed |
| `TxSortedMap.SortedMap.Cap` | eth/core/tx_list.go:127-148 | keeps the lowest nonces, as many as allowed, and returns the others from the highest down |
| `TxSortedMap.SortedMap.Remove` | eth/core/tx_list.go:152-169 | exactly the nonce is gone from map, heap and cache |
| `TxSortedMap.SortedMap.Ready` | eth/core/tx_list.go:178-193 | removes the maximal run of consecutive nonces from the lowest, if that is not above the start; not all lower nonces, as its comment says |
| `TxSortedMap.SortedMap.Flatten` | eth/core/tx_list.go:203-216 | the contents in order of nonces, from the cache when there is one |
| `TxSortedMap.OrderHas` | eth/core/tx_list.go:203-216 | the order has exactly the contents |
| `TxSortedMap.OrderAscends` | eth/core/tx_list.go:203-216 | the order is strictly increasing in nonces |
| `TxList.CapsSuffice` | eth/core/tx_list.go:290-297 | when the caps are within the limits nothing has to be filtered, so the short cut is exact |
| `TxList.FilterSplits` | eth/core/tx_list.go:290-314 | filtering splits the contents into what is kept, what is unpaid and what is stranded |
| `TxList.TxList.Add` | eth/core/tx_list.go:251-272 | a replacement is accepted exactly if it is dearer by the percentage; the caps still bound every member |
| `TxList.TxList.Filter` | eth/core/tx_list.go:290-314 | drops what cannot be paid; a strict list also gives up everything above it |
| `TxList.TxList.Remove` | eth/core/tx_list.go:325-336 | a strict list gives up everything above the removed nonce |
| `TxList.TxList.Cap` | eth/core/tx_list.go:318-320 | keeps the lowest nonces |
| `TxList.TxList.Ready` | eth/core/tx_list.go:345-347 | the maximal ready run |
| `TxPriced.PricedList.Put` | eth/core/tx_list.go:414-416 | every pooled transaction has an entry, and the stale counter stays right |
| `TxPriced.PricedList.Removed` | eth/core/tx_list.go:421-436 | the heap is built anew, with exactly the pooled transactions and a counter of zero, if and only if more than a quarter would be stale; the counter stays right |
| `TxPriced.PricedList.Underpriced` | eth/core/tx_list.go:471-493 | compares with the cheapest pooled transaction, in spite of stale entries; entries of pooled transactions are not touched |
| `TxPriced.PricedList.Discard` | eth/core/tx_list.go:497-520 | the cheapest entries of transactions that are not local, as many as asked for or all; a transaction is given twice only if two of its entries may be, and surely if two of its entries are, among the cheapest |
| `TxPriced.PricedList.Cap` | eth/core/tx_list.go:440-467 | exactly the transactions below a price that are not local leave the heap, each with all its entries |
| `TxPriced.ExactMiscount` | eth/core/tx_list.go:497-520 | without equally cheap transactions the two conditions of discarding are one: it gives a transaction twice if and only if two of its entries are among the cheapest |
| `TxPriced.PutAgain` | eth/core/tx_list.go:414-436 | a transaction removed while few entries are stale, and put again, has two entries |
| `TxPriced.DiscardMiscounts` | eth/core/tx_list.go:414-520 | put, removed, put again and discarded: a transaction is given twice, and the stale counter is wrong afterwards |
| `PoolPlaces.TakePending` | eth/core/tx_pool.go:898-937 | taking part of a pending list in hand keeps every transaction in exactly one place |
| `PoolPlaces.PutQueue` | eth/core/tx_pool.go:715-738 | a transaction in hand finds its nonce free in both lists, so that queueing it replaces nothing |
| `PoolPlaces.PutPending` | eth/core/tx_pool.go:756-789 | the same for promotion, so that its branches for a taken nonce are never taken |
| `PoolPlaces.Moved` | eth/core/tx_pool.go:942-997 | what leaves a queue while the same transactions stay known has become pending, and nothing else has |
| `PoolPlaces.StillWaits` | eth/core/tx_pool.go:1030-1064 | nonces that are expected again after a truncation have never been queued |
| `PoolNonces.CutStep` | eth/core/tx_pool.go:912-928 | cutting a pending list and expecting the cut nonce leaves no gap, also among nonces that the state has passed; a passed nonce is expected exactly if a passed one was cut |
| `PoolNonces.AppendStep` | eth/core/tx_pool.go:972-997 | appending what is ready of a clean queue leaves no gap, and nothing ready in the queue |
| `PoolNonces.SwapStep` | eth/core/tx_pool.go:672-690 | a replacement leaves no gap |
| `PoolNonces.NeverLifted` | eth/core/state/managed_state.go:86-141 | the managed nonces are the tracked ones where there are any and the state's elsewhere: the lift of a tracked nonce never shows, since setting it writes the copied state too |
| `PoolSteps.RunNonces` | eth/core/tx_pool.go:972-982 | a run of the queue, in order, has consecutive nonces |
| `PoolSteps.DemotedIsUnbroken` | eth/core/tx_pool.go:1118-1158 | demotion leaves exactly the nonces from the state's up to the expected one if and only if no nonce was missing between the state's and a payable one (or the state's own was missing or not payable) |
| `PoolSteps.GapStays` | eth/core/tx_pool.go:1145-1151 | a gap that is not in front survives demotion: nonces 5 and 7 stay pending without 6 |
| `PoolSteps.AlwaysGapless` | eth/core/tx_pool.go:376-456 | consecutive nonces satisfy that condition for every new state |
| `PoolSteps.RaisedUnbroken` | eth/core/tx_pool.go:442-452 | after demotion and raising, an account's pending nonces reach without gap from the state's nonce to the expected one if and only if its list satisfied the condition, and the state's nonce is expected where nothing is pending |
| `PoolSteps.SplitStrict` | eth/core/tx_pool.go:1130-1143 | the lowest unpaid nonce divides what is kept from what is stranded |
| `PoolSteps.CountAll` | eth/core/tx_pool.go:1003-1006 | the number of transactions in all lists |
| `PoolRuns.IsAdmitted` | eth/core/tx_pool.go:639-710 | room made and a transaction inserted is an admission: each answer exactly in its case, nothing local lost but to a higher bid, the capacity kept, no new gap |
| `PoolRuns.AccountReset` | eth/core/tx_pool.go:425-456 | an account through a reset: in order in the end if reinjection has left the nonces that the state has passed, and otherwise with nothing pending and a passed nonce expected |
| `PoolRuns.RoomKeepsPast` | eth/core/tx_pool.go:440-440 | while all that comes back has room, reinjection leaves the nonces that the state has passed |
| `PoolRuns.StaysCalm` | eth/core/tx_pool.go:639-671 | a pool that has room for a batch, or is within its capacity and has no local accounts, never has to give up two transactions at once |
| `PoolReturns.AllCome` | eth/core/tx_pool.go:847-868 | while transactions come back into a pool with room, the queue of an account whose nonce has fallen has exactly what has come back below the old nonce, and the old nonce is taken by the old transaction unless that is outbid |
| `PoolReturns.BackAt` | eth/core/tx_pool.go:425-441 | after reinjection the pending list has a gap that matters if and only if the state's nonce came back, one between it and the old nonce did not, and the old nonce is pending and can be paid for |
| `PoolReturns.FallenReset` | eth/core/tx_pool.go:425-456 | with room, an account whose nonce has fallen ends a reset in order if and only if its transactions are not parted in that way, which shows before the reset |
| `PoolReturns.GaplessReset` | eth/core/tx_pool.go:442-456 | an account ends a reset in order if its list has no gap that matters once transactions have come back, and the state's nonce is expected where nothing stays pending |
| `PoolRuns.TotalBound` | eth/core/tx_pool.go:1003-1006 | no more is pending than is known |
| `PoolGaps.ReorgLeavesGap` | eth/core/tx_pool.go:425-456 | from an empty pool: nonce 7 is added, the head goes back to nonce 5, nonce 5 comes back and 6 is refused; 5 and 7 are pending without 6 |
| `PoolGaps.ReinjectionSinksNonce` | eth/core/tx_pool.go:425-456 | from an empty pool: nonce 7 is added, the head moves on to 8, and a dearer transaction that comes back takes its place; the pool then expects 7, which the state has passed |
| `TxPool.TxPool.constructor` | eth/core/tx_pool.go:237-281 | an empty pool satisfies every invariant |
| `TxPool.TxPool.EnqueueTx` | eth/core/tx_pool.go:715-738 | queued, or refused exactly if a queued transaction with its nonce is not outbid |
| `TxPool.TxPool.RemoveTx` | eth/core/tx_pool.go:898-937 | the transaction is gone; what followed it in a pending list is queued, and nothing else moves; no gaps, and nothing executable is left in a queue |
| `TxPool.TxPool.PromoteTx` | eth/core/tx_pool.go:756-789 | moves one transaction to its pending list and expects the next nonce |
| `TxPool.TxPool.PromoteAccount` | eth/core/tx_pool.go:954-997 | exactly what a clean queue has ready becomes pending, of the rest the lowest nonces stay, as many as allowed, and nothing ready is left; no new gap, for any state |
| `TxPool.TxPool.Truncate` | eth/core/tx_pool.go:1002-1072 | all lists of accounts that are not local are cut to one level, not below AccountSlots, and ends within GlobalSlots or with all of them within AccountSlots; only highest nonces go, and the limit is undershot by less than the number of offenders |
| `TxPool.TxPool.DropRound` | eth/core/tx_pool.go:1030-1047 | one round takes the highest nonce from each of several equally long lists |
| `TxPool.TxPool.LimitQueue` | eth/core/tx_pool.go:1073-1112 | meets the limit exactly or leaves only local accounts; at most one account loses part of its queue, and then its highest nonces; those with later heartbeats lose all they have before others lose anything |
| `TxPool.TxPool.PromoteExecutables` | eth/core/tx_pool.go:942-1113 | exactly an advance of the given accounts, followed by the limits; no gaps arise, nothing stale or executable is left in the queues of the given accounts, and local accounts lose only what is too old or unpaid |
| `TxPool.TxPool.MakeRoom` | eth/core/tx_pool.go:651-671 | refuses exactly what is no dearer than everything in a full pool; otherwise only the cheapest that are not local go, enough of them unless two entries of one may be among the cheapest; only then can the stale counter go wrong, and it does if two entries are |
| `TxPool.TxPool.DiscardCheapest` | eth/core/tx_pool.go:659-667 | as many of the cheapest that are not local as asked for, or all of them, unless two entries of one may be among the cheapest; the stale counter is the same unless they may be, and wrong if they are |
| `TxPool.TxPool.Add` | eth/core/tx_pool.go:639-710 | each answer exactly in its case, with the first check of `validateTx` that fails; in a pool that is not full exactly one list changes; what leaves was among the cheapest or was outbid at its nonce; a pool within its capacity stays within it unless it is full of local transactions; no new gap for any state; an account becomes local only by a queued local transaction |
| `TxPool.TxPool.AddTx` | eth/core/tx_pool.go:820-835 | an admission, followed by a promotion of the account exactly if something new was accepted; keeps the pool steady, and the stale counter right unless two entries of one transaction may have to go; local accounts lose only what is outbid, too old or unpaid |
| `TxPool.TxPool.AddTxs` | eth/core/tx_pool.go:847-868 | one admission after the other, each answer that of its admission, then one promotion of exactly the accounts that got something new, with its limits; keeps the pool steady; local accounts lose only what is outbid, too old or unpaid; the stale counter stays right where there is room for the batch, or without local accounts |
| `TxPool.TxPool.SetGasPrice` | eth/core/tx_pool.go:489-498 | exactly the transactions below the price that are not local are gone, and the pool stays steady; the stale counter stays right if and only if none of them had two entries in the heap |
| `TxPool.TxPool.DemoteAccount` | eth/core/tx_pool.go:1118-1158 | exactly the stale and unpaid are dropped, and what stays pending is the payable run from the state's nonce, or nothing when that is missing |
| `TxPool.TxPool.Demote` | eth/core/tx_pool.go:1118-1158 | all pending lists are demoted, and whatever is gone is too old or unpaid |
| `TxPool.TxPool.RaiseNonces` | eth/core/tx_pool.go:446-452 | the pool expects what follows the last pending nonce of each account; no list is empty, so the last element exists |
| `TxPool.TxPool.Reset` | eth/core/tx_pool.go:425-456 | reinjection, demotion and promotion, each exactly; nothing stale is queued; an account whose nonce has not fallen ends in order if and only if nothing pending that the state has passed had to make room, so always when its nonce is the same; one whose nonce has fallen does if its list has no gap that matters after reinjection; when all that comes back has room, every account ends in order but those whose transactions are parted, which shows before the call; without reinjection the pool is steady; local accounts lose only what is outbid, too old or unpaid; the stale counter stays right under the condition of AddTxs |
| `Feed.Find` | eth/event/feed.go:213-220 | the first case with the channel, or none |
| `Feed.Delete` | eth/event/feed.go:223-225 | shifts down in place what follows the deleted case |
| `Feed.Deactivate` | eth/event/feed.go:228-232 | swaps a case behind the active ones, in place |
| `Feed.SwapSplits` | eth/event/feed.go:228-232 | the active prefix loses exactly the swapped channel and the rest gains it |
| `Feed.Served` | eth/event/feed.go:156-180 | serving a case keeps the account of active, served and removed channels |
| `Feed.Deleted` | eth/event/feed.go:170-177 | deleting a case keeps that account, whether it was still active or not |
| `Feed.OnItsWay` | eth/event/feed.go:104-125 | a live channel that is not in the inbox has one more case than there are removals of it, so a removal always finds its case |
| `Feed.Feed.constructor` | eth/event/feed.go:61-66 | only the case that takes removals |
| `Feed.Feed.Subscribe` | eth/event/feed.go:73-93 | the channel waits in the inbox |
| `Feed.Feed.BeginRemove` | eth/event/feed.go:104-115 | deleted in the inbox, or on its way to the cases |
| `Feed.Feed.RemoveIdle` | eth/event/feed.go:117-124 | with the lock free the removal deletes its case |
| `Feed.Feed.BeginSend` | eth/event/feed.go:129-150 | a send starts with all cases and the inbox, each with its value |
| `Feed.Feed.TryAll` | eth/event/feed.go:156-165 | the pass that does not block tries every active case once, also those swapped in |
| `Feed.Feed.Deliver` | eth/event/feed.go:159-165 | the channel gets the value of this send, and the count goes up by one |
| `Feed.Feed.TakeRemove` | eth/event/feed.go:170-177 | the removed channel leaves the active ones exactly if one of its cases was active |
| `Feed.Feed.Happen` | eth/event/feed.go:104-180 | a subscription, a removal, its arrival or a delivery during a send has exactly its own effect on who is subscribed, waiting, being removed and removed |
| `Feed.Feed.EndSend` | eth/event/feed.go:166-189 | every channel the send started with has got the value exactly once or was removed before, and the result counts the deliveries |
| `Feed.Feed.Send` | eth/event/feed.go:129-190 | for every interleaving with subscriptions, removals and slow channels: when done, channels that were not removed have got the value exactly once; who is subscribed, waiting or being removed is what the events make of it, and nothing else |
| `Gas.IntrinsicGas` | eth/core/state_transition.go:79-109 | the exact integer formula, or an error if and only if it exceeds 64 bits |
| `Gas.GasPool.AddGas` | eth/core/gaspool.go:29-35 | panics if and only if the pool would not fit |
| `Gas.GasPool.SubGas` | eth/core/gaspool.go:39-45 | deducts, or fails exactly if there is not enough |
| `Gas.StateTransition.BuyGas` | eth/core/state_transition.go:152-165 | the two errors exactly in their cases, without any change; otherwise sender and pool are charged |
| `Gas.StateTransition.PreCheck` | eth/core/state_transition.go:167-178 | the first objection, in order, or gas is bought |
| `Gas.StateTransition.UseGas` | eth/core/state_transition.go:143-150 | deducts, or fails exactly if there is not enough |
| `Gas.StateTransition.RefundGas` | eth/core/state_transition.go:230-245 | the refund is capped by half of what was used, nothing overflows, and AddGas does not panic |
| `Gas.StateTransition.TransitionDb` | eth/core/state_transition.go:183-228 | every outcome with the whole state after it: refused without change, refused after payment, or settled between sender, miner and pool |
| `Gas.Conserved` | eth/core/state_transition.go:183-250 | a message that is not refused changes the sum of all balances by what the machine does and nothing else, and is charged at least half of its intrinsic gas; one refused by the first checks changes nothing, and one refused later has lost the price of its gas |
| `Gas.ApplyAll` | eth/core/state_transition.go:131-228 | over any sequence of messages the pool falls by exactly the gas used and the sum of balances changes by the machine's own changes; a refused message does what it does alone on top of that |

## Assumptions

- The hash is a function parameter. It is assumed to be free of collisions on a finite set of byte
  strings that contains what the run at hand hashes, never on all byte strings.
- Content addressing: inserting into the node cache never gives a hash a second content, content is
  acyclic, and children are available before their parents (`CanInsert`, `CanReference`).
- The virtual machine returns no more gas than it got (`Frugal`).
- No encoding at hand has the hash zero, which stands for the meta-root (`Suits`).
- The database holds no other content under the hash of a trie node (`Honest`).
- A batch is written as a whole or not at all, so that a crash leaves one of the images of the disk.
- Heap operations of the standard library are represented by what they promise, a heap with the
  same elements; the priority queue of the truncation by returning a longest list first.
- A transaction is identified by its contents, which stand for its hash.

## Left out

- Keccak, signatures and sender recovery: the hash is a parameter, the sender a field.
- The clean-node cache, preimages, locks, metrics, timers and logging of the node database; operations are atomic.
- RLP reflection: struct tags, type cache, custom encoders and decoders, and integers and booleans beyond byte strings.
- Difference and union iterators, and the secure trie wrapper; they would add members of the same kind.
- Heartbeats: they are an argument of `LimitQueue`; when they are set is not modelled. The order of accounts in loops over maps is left open.
- The journal, the pool's event loop, its status queries and its notifications.
- The walk over blocks that computes which transactions a reorganisation gives up; `Reset` takes them as an argument.
- The type check and panics of the broadcast feed, and how long a channel blocks.
- TrieDatabase.Database.Commit: preimages are not written, and the early return that keeps a lock is not modelled.
- TrieDatabase.Database.Insert: counts of parents are unbounded, where the code has 32 bits.
- TrieSync.Sync.Children: a leaf callback that fails has asked for nothing, and priorities of the queue are left open.
- TrieCommit.CommitTo: leaf callbacks, which tie storage tries and code to accounts, are not called; `Reference` models what they do.
- TrieIterator.LeafKey: a path of an odd number of nibbles gives no key, where the code panics.
- TxPool.TxPool.Add: size, signature and intrinsic gas of a transaction are parameters, and its value is never negative.
- TxPool.TxPool.AddTxs: of a pool with local accounts that has no room for the batch, nothing is said of the stale counter; `Add` states what each admission does to it.
- TxPool.TxPool.Reset: of an account whose nonce has fallen while the pool lacks room for what comes back, the condition is on its list after reinjection, and goes one way only.
- TxPool.TxPool.LimitQueue: a whole queue is removed from its end, where the code starts at its front; the result is the same.
- The pool holds its lists as values with the operations proved for `SortedMap` and `TxList`; that each list is an object of its own is not modelled.
- Feed.Feed.BeginSend: the cases move to a new array when the inbox is appended, where the code may reuse spare capacity.
- Nonces, prices and balances are unbounded integers; gas is bounded by 64 bits.
- Consensus, networking, archiving, command line and remote procedure calls.
