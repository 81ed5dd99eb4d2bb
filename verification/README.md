# gocoin, verified

A Dafny model of the parts of the gocoin node that decide what is stored and agreed on, and proofs about
them. Where the code works step by step on buffers, caches and tables, the model does too, and is proved
against functions on values.

- **Merkle trie** (`libraries/chain/space/trie`). `Patricia` is the trie as a tree, `HexKeys` and `TrieNode` its key
  and node encodings, `LazyTrie` the recursive operations on partly loaded nodes, `TrieHasher` hashing with cached
  hashes, embedding and unloading, `MerkleTrie` the trie object and whole runs of it. On top of these stand
  `TrieProof` (membership proofs), `TrieIterator` and `TrieDifference`, and the downloader: `SyncLinks` and
  `TrieSync` (the invariant of its scheduler, over keys of any kind), `SyncSteps` (what its steps do and that they
  lead to an end), `Scheduler` (the object) and `TrieDownload` (the same over trie nodes).
- **RLP** (`libraries/rlp`). `Rlp` is the encoding of nested items and the splitting of raw bytes, `RlpEncoder` the
  encoder that fills in list headers at the end, `RlpStream` the streaming decoder.
- **Space chain** (`libraries/chain/space`). `ObjectCache`, `SpaceState`, `AccountRecord` and `StateManage` are the
  account and space state, `BlockExec` the interpreter that is written three times in the source, `SpaceChain` chains
  of blocks and their genesis.
- **Groups** (`libraries/chain/vrf`, `libraries/chain/validategroup`), **event feed** (`libraries/event`), **container
  locks** (`libraries/chaincodecore/container`), **sponge** (`libraries/crypto/sha3`) and **binary Merkle trees**
  (`libraries/common`), one module each.

Conventions. Hash functions are parameters. No total hash from byte strings to 32 bytes is free of collisions,
so results that need it ask for it on a finite set only, the nodes in play. A model that says `None`, or has no block,
where the code has no result, says in its comment whether the code returns an error or panics. The permutation of the
sponge, the random draws of a group, the order in which a Go map is walked, the decoder of attributes and the leaf
callback of the downloader are parameters as well. Goroutines are modelled as interleaved steps.

`dafny verify dfyconfig.toml` checks the project.

## Findings

Where a property one would expect does not hold of the code, the model keeps the code, gives an input, and
proves exactly when the property holds.

- **Overdrawn pools.** The pool judges each transaction by the last block alone, so two of them can overdraw an account,
  and a negative balance cannot be encoded: the commit panics, for the proposer and for everybody else
  (`BlockExec.OverdrawnPool`). A commit succeeds if and only if nothing is negative (`StateManage.StateDB.CommitTo`).
- **Account encodings.** An account's attributes are encoded in the order of a map walk. Honest nodes are sure to get
  the same root if and only if no written account has two attributes (`AccountRecord.TwoAttributes`, `AccountRecord.WalksAgree`,
  `AccountRecord.WalksDiffer`, `BlockExec.HonestRefusal`).
- **Space 0.** An account of space 0 without balance and attributes looks empty, and an empty account is not asked which
  space it leaves (`SpaceState.SpaceZeroTrap`); nor is it kept by a commit. And a space that exists is not founded again,
  but the account is made all the same, and counts as one of space 0. The relation of accounts and spaces survives a run,
  a commit and a chain if and only if none of this happens (`BlockExec.RunKeeps`, `SpaceState.CommitKeeps`,
  `SpaceChain.ChainKeeps`). A genesis without space 0 is always safe (`SpaceChain.ChainFromGenesis`); one with it has the
  relation under the condition of `SpaceChain.GenesisLinked`, and its fixed space index of 1 is right for a single account
  in space 0 only (`SpaceChain.GenesisSane`).
- **Failing leaf callbacks.** If a callback registers a sub-trie and then fails, its node keeps the count of the sub-trie
  but loses its children, and is committed without them (`Scheduler.LostRun`). `TrieSync.ProcessItem` says exactly
  which nodes that happens to, `TrieSync.ClosedExactly` what it costs, and `TrieDownload.Download` that without such a
  node in it a trie is complete once nothing is pending. A callback that fails having registered nothing leaves its node
  pending for ever (`Scheduler.StuckRun`); where no callback fails, a download ends (`Scheduler.Fetch`, `TrieDownload.CopyTrie`).
- **Skipped proof levels and empty tries.** A proof is accepted exactly when the trie is not empty and no level was
  skipped (`TrieProof.ProveAndVerify`).
- **Repeated liquidations.** A liquidation listed twice in a block is applied twice by the validator and once by the
  inserter (`BlockExec.RepeatedLiquidation`); with distinct hashes they agree (`BlockExec.OnceIsRun`).
- **Stale committees.** The number a committee is cached under is never assigned, so any cached committee is returned
  for epoch 0 (`ValidateGroup.StaleRun`, `ValidateGroup.Group.SelectConsensus`).
- **Large balances.** A liquidation compares a balance by its low 64 bits and takes the whole of a larger one where these
  are not above the gas (`BlockExec.TakesTheLess`).
- **Short coin runs.** The count of a run of coins that breaks is not reset, so the next run is shorter
  (`Vrf.CountLeft`, `Vrf.RunLength`).
- **Order of iteration.** A full node keeps its own value last, so a key comes after the keys it is a prefix of, unlike in
  the order of byte strings (`TrieIterator.ByteOrder`, `TrieIterator.PrefixLast`).
- **Summing after reading.** The clone of a sponge that has been read from starts too early for every rate but 168, or
  panics (`Sponge.State.Sum`).
- **Unbinding from the wrong space** breaks the relation of accounts and spaces (`SpaceState.UnboundKeeps`).
- **Empty compact keys** make the node decoder panic (`TrieNode.EmptyKeyPanics`).

Where code and comments disagree the model follows the code: `BindAddr` never creates an account
(`libraries/chain/space/state/statemanage.go:329-345`), and `VerifyProof` does not hash what it reads
(`libraries/chain/space/trie/proof.go:79-103`).

## Model

| member | source | states |
|---|---|---|
| Patricia.GetIsLookup | libraries/chain/space/trie/trie.go:136-178 | `tryGet` on a minimal trie answers as the finite map the trie stands for, for every terminated key |
| Patricia.InsertIsUpdate | libraries/chain/space/trie/trie.go:212-279 | inserting a non-empty value updates the map at that key and nowhere else, and leaves a trie |
| Patricia.DeleteIsRemoval | libraries/chain/space/trie/trie.go:303-410 | deleting removes exactly that key from the map, and leaves a trie |
| Patricia.InsertMinimal | libraries/chain/space/trie/trie.go:212-279 | insertion keeps the minimal form: no short node under a short node, two children at least under a full node, values only at the end of a terminated key |
| Patricia.DeleteMinimal | libraries/chain/space/trie/trie.go:303-410 | deletion keeps the minimal form, merging short nodes and collapsing full nodes with one child left |
| Patricia.MinimalIsUnique | libraries/chain/space/trie/trie.go:136-410 | two minimal tries with the same map are the same tree |
| Patricia.StepRefines | libraries/chain/space/trie/trie.go:180-301 | one update or deletion (an update with an empty value deletes) does to the map what it should |
| Patricia.RunRefines | libraries/chain/space/trie/trie.go:180-301 | any run of updates and deletions does to the map what the run does |
| Patricia.OrderIndependent | libraries/chain/space/trie/trie.go:180-301 | two runs that end in the same contents end in the same tree, whatever their order and detours |
| Rlp.SplitOfString | libraries/rlp/raw.go:23-130 | splitting the encoding of a string gives its kind, its content and what follows |
| Rlp.SplitOfList | libraries/rlp/raw.go:23-130 | the same for lists |
| Rlp.SplitIsCanonical | libraries/rlp/raw.go:23-130 | whatever `Split` accepts as a string or list begins with the one encoding of its content |
| Rlp.DecodeOfEncode | libraries/rlp/decode.go:479-501 | decoding the encoding of any nested item, with anything after it, returns the item and the rest |
| Rlp.EncodeOfDecode | libraries/rlp/decode.go:479-501 | any bytes that decode begin with the encoding of what they decode to |
| Rlp.EncodeIsPrefixFree | libraries/rlp/encode.go:186-209 | no encoding is a prefix of another, so encodings can be told apart when concatenated |
| Rlp.NumberFront | libraries/rlp/encode.go:570-600 | numbers are big-endian: the first byte weighs most |
| Rlp.StringForm | libraries/rlp/encode.go:175-194 | the same on strings: a byte below 0x80 is itself, then 0x80 and 0xB7 |
| Rlp.ListForm | libraries/rlp/encode.go:117-143 | Appendix B of the Yellow Paper on lists, without the header functions: below 56 bytes of payload one byte 0xC0 plus its length, else 0xF7 plus the number of size bytes, the first of which is not zero; the payload is the encodings of the items in order |
| Rlp.Examples | libraries/rlp/encode.go:117-143 | the empty list is C0, the empty string 80, and the list of "cat" and "dog" C8 83 63 61 74 83 64 6F 67 |
| Rlp.CountValues | libraries/rlp/raw.go:58-68 | the loop counts the values of a payload, or reports the first malformed one |
| Rlp.CountOfEncodeAll | libraries/rlp/raw.go:58-68 | a payload made of encoded items has as many values as items |
| RlpEncoder.EncBuf.WriteString | libraries/rlp/encode.go:175-194 | a string adds its encoding to the string data and no header |
| RlpEncoder.EncBuf.WriteUint | libraries/rlp/encode.go:376-390 | a number adds the encoding of its shortest big-endian bytes |
| RlpEncoder.EncBuf.CloseList | libraries/rlp/encode.go:202-209 | ending a list fills in the payload size and counts the size of the header |
| RlpEncoder.EncBuf.WriteItem | libraries/rlp/encode.go:166-209 | writing a nested item adds exactly its strings and its list headers, each at its offset |
| RlpEncoder.WeaveItem | libraries/rlp/encode.go:215-231 | string data woven with the collected headers is the recursive encoding of the item |
| RlpEncoder.WeaveLength | libraries/rlp/encode.go:211-213 | `size()` is exact: data plus headers are as long as what is woven |
| RlpEncoder.EncBuf.OutputOf | libraries/rlp/encode.go:196-213 | a buffer that took one item stands for that item's encoding, with its exact size |
| RlpEncoder.EncBuf.ToBytes | libraries/rlp/encode.go:215-231 | `toBytes` returns the woven bytes, `size()` many |
| RlpEncoder.EncBuf.ToWriter | libraries/rlp/encode.go:233-257 | `toWriter` writes the same bytes |
| RlpEncoder.EncReader.Next | libraries/rlp/encode.go:291-323 | `next` moves one piece out of the buffers and loses no byte; there is none exactly at the end |
| RlpEncoder.EncReader.Read | libraries/rlp/encode.go:266-285 | a read returns as many of the remaining bytes as fit, in order, and reports the end exactly when nothing is left |
| RlpEncoder.ReadAll | libraries/rlp/encode.go:259-323 | under any sequence of read sizes the reads together return the encoding from its start on |
| RlpEncoder.EncodeToBytes | libraries/rlp/encode.go:81-94 | encoding a nested item gives its recursive encoding |
| RlpStream.Stream.ReadKind | libraries/rlp/decode.go:893-949 | the header of the next value, read from the stream, is the one the value-level parser finds |
| RlpStream.Stream.Kind | libraries/rlp/decode.go:860-891 | `Kind` succeeds exactly when the next value has a header and fits its list or the input, and repeats what it cached |
| RlpStream.Stream.Bytes | libraries/rlp/decode.go:639-660 | a string is returned unless it is a single byte that should have been its own encoding |
| RlpStream.Stream.List | libraries/rlp/decode.go:748-760 | a list becomes the innermost one, with its end known |
| RlpStream.Stream.ListEnd | libraries/rlp/decode.go:764-780 | a list ends exactly when its payload is used up, and the outer list advances by its size |
| RlpStream.Stream.Uint | libraries/rlp/decode.go:694-727 | an integer is accepted exactly when it is a string in shortest big-endian form of at most the wanted width |
| RlpStream.Stream.DecodeSliceElems | libraries/rlp/decode.go:306-331 | the elements up to the end of the list are the ones the value-level decoder gives |
| RlpStream.Stream.DecodeListSlice | libraries/rlp/decode.go:291-304 | a list decodes exactly when its payload is a sequence of canonical encodings |
| RlpStream.Stream.DecodeInterface | libraries/rlp/decode.go:479-501 | the stream decodes the next value exactly when the value-level decoder does, to the same item, and stops behind it |
| RlpStream.DecodeBytes | libraries/rlp/decode.go:103-113 | a byte string is accepted if and only if it is the encoding of an item, and then that item is returned |
| HexKeys.HexIsInjective | libraries/chain/space/trie/encoding.go:32-41 | different key bytes have different hex keys |
| HexKeys.HexForm | libraries/chain/space/trie/encoding.go:32-41 | a hex key is the high and the low nibble of every byte in turn, then 16 |
| HexKeys.CompactRoundTrip | libraries/chain/space/trie/encoding.go:3-30 | the compact form of every node key decodes to that key, odd or even, closed or not |
| HexKeys.CompactForm | libraries/chain/space/trie/encoding.go:3-18 | Appendix C of the Yellow Paper, byte by byte: bit 5 of the first byte says whether the key is terminated, bit 4 whether its nibbles are odd in number, and the nibbles follow two by two |
| HexKeys.OddExample | libraries/chain/space/trie/encoding.go:3-18 | the key 1 2 3 4 5 of an extension is 11 23 45 |
| HexKeys.CompactExample | libraries/chain/space/trie/encoding.go:3-18 | the key 0 F 1 C B 8 of a leaf is 20 0F 1C B8 |
| HexKeys.ReadForm | libraries/chain/space/trie/encoding.go:20-30 | any compact key that is not empty, whatever its first byte, is read that way |
| HexKeys.PackedOfUnpacked | libraries/chain/space/trie/encoding.go:32-62 | packing the nibbles of a byte string gives it back |
| HexKeys.KeybytesToHex | libraries/chain/space/trie/encoding.go:32-41 | the loop computes the nibbles of the key and the terminator |
| HexKeys.HexToCompact | libraries/chain/space/trie/encoding.go:3-18 | the loop computes the compact form of a node key |
| HexKeys.DecodeNibbles | libraries/chain/space/trie/encoding.go:57-61 | the loop packs nibbles in place, two by two, and leaves what is before them |
| HexKeys.CommonPrefix | libraries/chain/space/trie/encoding.go:64-75 | the loop finds the length of the common prefix |
| TrieNode.DecodeFullNode | libraries/chain/space/trie/node.go:141-158 | the loop of `decodeFull` computes what the recursive decoder of a full node does |
| TrieNode.DecodeOfEnc | libraries/chain/space/trie/node.go:99-187 | decoding the stored form of a trie node gives that node, long children as hashes and short ones embedded |
| TrieNode.RootHashFixesTrie | libraries/chain/space/trie/hasher.go:56-213 | under a hash without collisions on the nodes concerned, equal root hashes mean equal tries |
| TrieNode.StoredForm | libraries/chain/space/trie/hasher.go:90-213 | Appendix D of the Yellow Paper, byte by byte: a short node is the list of its compact key and its child, a full node that of its seventeen children; a child of 32 bytes or more is held by its hash |
| TrieNode.StoredExample | libraries/chain/space/trie/hasher.go:90-213 | the node that holds "verb" under "do" is C9 83 20 64 6F 84 76 65 72 62 |
| TrieNode.PanicIsNone | libraries/chain/space/trie/node.go:99-187 | for every generation, data on which decoding panics in `compactToHex` never decodes to a node |
| TrieNode.RefIsSmall | libraries/chain/space/trie/node.go:162-187 | a reference that decodes is an empty string, a hash of 32 bytes, or a node of at most 32 bytes |
| TrieNode.EmptyKeyPanics | libraries/chain/space/trie/encoding.go:20-30 | a two-element list with an empty string for its key makes the decoder panic, whatever follows |
| LazyTrie.ResolveHash | libraries/chain/space/trie/trie.go:426-433 | loading a node by hash gives a node that stands for the same subtrie; it can only be missing from an incomplete store |
| LazyTrie.TryGet | libraries/chain/space/trie/trie.go:136-178 | a lookup in a partly loaded trie answers as the whole trie, and what it loads stands for the same trie |
| LazyTrie.Insert | libraries/chain/space/trie/trie.go:212-279 | insertion into a partly loaded trie gives a node that stands for the updated trie; if it reports no change there was none |
| LazyTrie.Delete | libraries/chain/space/trie/trie.go:303-410 | deletion from a partly loaded trie, which may have to load the last child left, stands for the trie without the key |
| LazyTrie.FindOnlyChild | libraries/chain/space/trie/trie.go:351-362 | the loop over the children finds whether exactly one is left, and which |
| TrieHasher.Hasher.StoreNode | libraries/chain/space/trie/hasher.go:183-213 | a node becomes its hash, or stays as it is below 32 bytes unless forced; what is hashed is written when there is a store |
| TrieHasher.Hasher.Hash | libraries/chain/space/trie/hasher.go:56-101 | the reference to a subtrie, computed with cached hashes, is the one computed from scratch; a commit stores every node; and the node kept is the old one, its hash alone if it is clean and old enough, or the old one with its new hash, clean once committed |
| TrieHasher.UnloadAge | libraries/chain/space/trie/node.go:48-51 | old enough means a number of generations, counted across one wrap of the 16 bits |
| TrieHasher.Hasher.HashChildren | libraries/chain/space/trie/hasher.go:103-181 | collapsing a node replaces each child by its reference and keeps a node for the same subtrie |
| MerkleTrie.Trie.TryGet | libraries/chain/space/trie/trie.go:127-134 | a read returns the value the trie has for the key, or reports a missing node |
| MerkleTrie.Trie.TryUpdate | libraries/chain/space/trie/trie.go:194-210 | an update changes the contents at that key only; an empty value removes it |
| MerkleTrie.Trie.TryDelete | libraries/chain/space/trie/trie.go:290-301 | a deletion removes that key only |
| MerkleTrie.Trie.Hash | libraries/chain/space/trie/trie.go:441-446 | the hash is the one computed from scratch, whatever was cached, and the contents stay |
| MerkleTrie.Trie.Commit | libraries/chain/space/trie/trie.go:452-482 | a commit returns the root hash, stores every node of the trie and keeps what was stored |
| MerkleTrie.New | libraries/chain/space/trie/trie.go:93-107 | opening at a root hash gives the trie of that hash, or fails on a missing root |
| MerkleTrie.RunAll | libraries/chain/space/trie/trie.go:78-482 | over any run of reads, updates, deletions, hashing, commits and cache limits no node goes missing, the contents are those of a plain map, and the root hash depends on the contents alone |
| MerkleTrie.RunOverBytes | libraries/chain/space/trie/trie.go:116-301 | the same contents, told over key bytes: after any run the trie answers as a plain map from byte strings |
| MerkleTrie.CommitAndReopen | libraries/chain/space/trie/trie.go:452-482 | a committed trie opened again at the returned root misses no node and has the same contents, or is empty if its hash is one of the two that stand for the empty trie |
| TrieProof.ContentAddressed | libraries/chain/space/trie/proof.go:79-103 | a store that names its entries by their hashes agrees with the trie, given no collisions |
| TrieProof.GetIn | libraries/chain/space/trie/proof.go:105-127 | the loop of `get` follows the key inside one node to a value, a hash or nothing |
| TrieProof.NeverOutOfKey | libraries/chain/space/trie/proof.go:115-117 | over the nodes of the trie itself `get` never indexes an empty key |
| TrieProof.VerifyProof | libraries/chain/space/trie/proof.go:79-103 | against a store that agrees with the trie, verification accepts if and only if the trie is not empty and all elements of the key are there, and then returns the trie's value or proven absence |
| TrieProof.VerifyStored | libraries/chain/space/trie/proof.go:79-103 | the same against any store that names its entries by their hashes |
| TrieProof.Prove | libraries/chain/space/trie/proof.go:21-72 | `Prove` adds to the store exactly the elements of the key from the wanted level on |
| TrieProof.CollectPath | libraries/chain/space/trie/proof.go:21-52 | the first loop collects the nodes on the path of the key, loading what is missing |
| TrieProof.ProveAndVerify | libraries/chain/space/trie/proof.go:21-103 | a proof taken from a trie is accepted exactly when the trie is not empty and no level was skipped, and then gives what `Get` gives |
| SyncLinks.LinkStep | libraries/chain/space/trie/sync.go:238-250 | scheduling a child keeps every counter equal to the number of pending links |
| SyncLinks.NotifyStep | libraries/chain/space/trie/sync.go:316-333 | telling a parent takes one link and one count away |
| TrieSync.PrefixIsClosed | libraries/chain/space/trie/sync.go:219-231 | after writing any prefix of the batch every stored node has its references stored |
| TrieSync.CommitRequest | libraries/chain/space/trie/sync.go:316-333 | committing an entry, and then every parent whose counter comes to 0, keeps the invariant and the order of the batch; the new state is exactly that |
| TrieSync.AddSubTrieBelow | libraries/chain/space/trie/sync.go:97-126 | a sub-trie registered below a request is trivial, known or waited for, exactly the new ones are linked, and nothing is exempted from having its references stored |
| TrieSync.AddRawEntryBelow | libraries/chain/space/trie/sync.go:132-160 | the same for raw entries; exactly the new raw entry is exempted |
| TrieSync.Notify | libraries/chain/space/trie/sync.go:282-290 | what a callback registers is linked below the node, whether the callback fails or not, and exactly the new raw entries it declares are exempted |
| TrieSync.FindMissing | libraries/chain/space/trie/sync.go:254-311 | unless the callback fails, every reference of the node is known or listed |
| TrieSync.ProcessItem | libraries/chain/space/trie/sync.go:176-213 | a result is refused exactly when it was not asked for or came before; otherwise its data is kept or committed, and a node loses its references exactly when its callback fails after registering something else; those nodes and the declared raw entries, and no others, are exempted |
| SyncSteps.StepKeeps | libraries/chain/space/trie/sync.go:176-213 | a result is accepted exactly when it fails none of the four tests, and then it is held; what was held is kept, other open requests stay open, and the batch grows exactly when something is said to be committed |
| SyncSteps.NewRequests | libraries/chain/space/trie/sync.go:252-311 | every request a node gives rise to is one of its callback's, without a callback, or one of its unknown references, with the callback of the node |
| SyncSteps.StepMoves | libraries/chain/space/trie/sync.go:204-333 | unless a callback fails, every request that has its data waits for something |
| SyncSteps.NonePending | libraries/chain/space/trie/sync.go:204-333 | so that once every request has its data there is none, if what is asked for lies nearer to the leaves |
| SyncSteps.StepStuck | libraries/chain/space/trie/sync.go:182-184 | a request that has its data and that nobody tells is never moved by any result |
| TrieSync.HarmlessKeeps | libraries/chain/space/trie/sync.go:200-203 | a callback that registers nothing when it fails loses no references |
| TrieSync.ClosedExactly | libraries/chain/space/trie/sync.go:200-213 | a store that is closed but for the lost nodes is closed if and only if these have their references all the same |
| TrieSync.CommitClosed | libraries/chain/space/trie/sync.go:316-333 | committing a node keeps a closed store closed if and only if all its references are known by then |
| Scheduler.LostChild | libraries/chain/space/trie/sync.go:200-213 | the two steps by which a failing callback makes the scheduler commit a node without its child, with nothing pending |
| Scheduler.LostRun | libraries/chain/space/trie/sync.go:173-215 | the same by two deliveries to a scheduler |
| Scheduler.StuckRun | libraries/chain/space/trie/sync.go:192-203 | a node whose callback fails having registered nothing is pending for ever, whatever is delivered |
| Scheduler.Sync.constructor | libraries/chain/space/trie/sync.go:85-94 | an empty scheduler over a store that is closed but for given raw entries |
| Scheduler.Sync.AddSubTrie | libraries/chain/space/trie/sync.go:97-126 | a new root is pending or known, its request new and with its callback, and counts among those asked for; what its callback may declare raw is allowed from now on, and nothing else |
| Scheduler.Sync.AddRawEntry | libraries/chain/space/trie/sync.go:132-160 | a raw entry is trivial, known or pending, its request new and raw; it alone is exempted |
| Scheduler.Sync.Process | libraries/chain/space/trie/sync.go:173-215 | results are taken up to the first that fails a test, and the status names that test; those taken are held from then on, in the batch or by their requests; something was committed exactly when the batch grew; the invariant holds, and nothing known is lost |
| Scheduler.Sync.Commit | libraries/chain/space/trie/sync.go:219-231 | whatever prefix of the batch gets written, the database is closed but for declared raw entries and nodes that lost their references, and closed but for declared raw entries if and only if the lost nodes have their references stored |
| Scheduler.Sync.CommitAll | libraries/chain/space/trie/sync.go:219-231 | if every write succeeds the database is what was flushed, the batch is empty and nothing else changes |
| Scheduler.Fetch | libraries/chain/space/trie/sync.go:162-231 | as long as a request has no data, any one of them is answered from a supply of data: this ends, with nothing pending |
| TrieDownload.ClosedIsComplete | libraries/chain/space/trie/sync.go:252-311 | in a closed store that agrees with a trie, a stored root has every node of its trie stored |
| TrieDownload.NothingPending | libraries/chain/space/trie/sync.go:173-231 | when nothing is pending, the batch and the database hold every node of every trie that was asked for, none of whose nodes is exempted |
| TrieDownload.Serve | libraries/chain/space/trie/sync.go:97-231 | over any calls, in any order, that declare no node of a trie raw and deliver none wrong, what the scheduler exempts and accepts stays right for the trie, the roots asked for stay, and callbacks are harmless together exactly when each is |
| TrieDownload.Complete | libraries/chain/space/trie/sync.go:173-231 | in any state of the scheduler with nothing pending every node of a trie that was asked for is stored or in the batch, unless one of its nodes lost its references, was declared raw or delivered wrong |
| TrieDownload.Download | libraries/chain/space/trie/sync.go:85-231 | a whole download, from a new scheduler over any closed store through any calls to the last commit: if nothing is pending, the database holds every node of the trie, provided none was declared raw, delivered wrong or lost its references; with harmless callbacks none did |
| TrieDownload.FetchTrie | libraries/chain/space/trie/sync.go:85-231 | the same from any supply, with callbacks that register sub-tries and raw entries of it |
| TrieDownload.StoreSupplies | libraries/chain/space/trie/sync.go:252-311 | a store that has a trie supplies all that downloading it asks for |
| TrieDownload.CopyTrie | libraries/chain/space/trie/sync.go:85-231 | copying a trie from a store that has it, whichever missing node is delivered next, ends with nothing pending and the trie in the database |
| TrieIterator.PreorderSorted | libraries/chain/space/trie/iterator.go:178-314 | the nodes of a trie come in strictly increasing order of their paths |
| TrieIterator.ByteOrder | libraries/chain/space/trie/iterator.go:178-300 | keys that differ in a byte come in the order of the first one that differs |
| TrieIterator.PrefixLast | libraries/chain/space/trie/iterator.go:178-300 | a key comes after the keys it is a prefix of |
| TrieIterator.LeafIsEntry | libraries/chain/space/trie/iterator.go:138-158 | the leaves are exactly the entries |
| TrieIterator.NextChild | libraries/chain/space/trie/iterator.go:264-300 | the loop finds the next child and leaves exactly the rest to come |
| TrieIterator.Peek | libraries/chain/space/trie/iterator.go:216-250 | peeking gives the next node in preorder, with or without descending |
| TrieIterator.NextNode | libraries/chain/space/trie/iterator.go:178-195 | one step moves to the next node, or ends exactly when none is left |
| TrieIterator.SeekOn | libraries/chain/space/trie/iterator.go:197-214 | seeking stops before the first node at or after the start |
| TrieIterator.Iterator.Next | libraries/chain/space/trie/iterator.go:44-56 | the next entry is the first leaf not yet returned |
| TrieIterator.Iterate | libraries/chain/space/trie/iterator.go:28-56 | iterating from a start key yields each entry at or after it exactly once, in order |
| TrieDifference.EqualNodes | libraries/chain/space/trie/iterator.go:316-332 | nodes that compare equal are at one path and, if they have a hash or a value, are the same |
| TrieDifference.NextDifferent | libraries/chain/space/trie/iterator.go:376-416 | what is passed over in the second trie is in the first, and a leaf stopped at is not |
| TrieDifference.DifferenceIterator.Next | libraries/chain/space/trie/iterator.go:376-416 | one step of the difference iterator, with what it skips |
| TrieDifference.Difference | libraries/chain/space/trie/iterator.go:316-416 | the leaves of the difference iterator are exactly the entries of the second trie that the first has not, or has otherwise, in order |
| ObjectCache.LoadIsLookup | libraries/chain/space/state/statemanage.go:218-242 | reading through the cache finds what the state holds and changes nothing a reader sees |
| ObjectCache.ChangeIsUpdate | libraries/chain/space/state/account_object.go:132-170 | a change is seen by readers and makes the object dirty, up to the first finalise |
| ObjectCache.Finalise | libraries/chain/space/state/statemanage.go:417-466 | dirty objects are written or, if empty, deleted; it fails exactly when one of them cannot be encoded |
| ObjectCache.WrittenIsSeen | libraries/chain/space/state/statemanage.go:417-466 | what is stored is what readers saw, without the empty objects |
| ObjectCache.WritesIsSeen | libraries/chain/space/state/statemanage.go:431-479 | everything dirty can be written exactly when everything readers see can |
| AccountRecord.NewAccountObject | libraries/chain/space/state/account_object.go:41-67 | reading a record rebuilds the attributes from its two lists |
| AccountRecord.RecordRoundTrip | libraries/chain/space/state/account_object.go:41-82 | an account written in whatever order of its attributes reads back as it was; the two lists hold keys and values side by side |
| AccountRecord.TwoAttributes | libraries/chain/space/state/account_object.go:69-82 | an account with two attributes, and its two encodings |
| AccountRecord.WalksAgree | libraries/chain/space/state/account_object.go:69-82 | if every written account has at most one attribute, all map walks give the same records, and so the same root |
| AccountRecord.WalksDiffer | libraries/chain/space/state/account_object.go:69-82 | otherwise two walks of the same state give different records |
| SpaceState.UnboundKeeps | libraries/chain/space/state/statemanage.go:347-377 | unbinding keeps the relation of accounts and spaces if and only if the account is bound to that space or none, with what a space 0 changes about it |
| SpaceState.AssociatedKeeps | libraries/chain/space/state/statemanage.go:357-370 | association keeps it if and only if the account is not an empty one that space 0 lists |
| SpaceState.FoundedKeeps | libraries/chain/space/state/statemanage.go:379-401 | founding keeps it if and only if nothing stands in its way: the space being there already, or being space 0, or the same trap |
| SpaceState.BoundKeeps | libraries/chain/space/state/statemanage.go:329-345 | binding keeps it if and only if the space is missing or the account is not caught in the trap |
| SpaceState.UnboundDoes | libraries/chain/space/state/statemanage.go:347-377 | unbinding takes an account off one list and leaves it without a space |
| SpaceState.BoundDoes | libraries/chain/space/state/statemanage.go:329-370 | binding changes the space of one account, and two lists at most |
| SpaceState.SpaceZeroTrap | libraries/chain/space/state/statemanage.go:357-370 | a state in which founding a space leaves an account on the lists of two |
| SpaceState.CommitKeeps | libraries/chain/space/state/statemanage.go:417-466 | a commit keeps it if and only if it drops no account that space 0 lists |
| SpaceState.FoundedIds | libraries/chain/space/state/statemanage.go:379-401 | founding keeps space ids below the next index and wallet ids distinct and below theirs |
| StateManage.RemoveAddress | libraries/chain/space/state/space_object.go:96-112 | the loop removes every occurrence of the address and keeps the order of the others |
| SpaceState.WithoutOrder | libraries/chain/space/state/space_object.go:96-112 | the other addresses stay, in their order |
| StateManage.StateDB.SetBalance | libraries/chain/space/state/statemanage.go:113-119 | sets the balance of an account that exists, and nothing else |
| StateManage.StateDB.AddBalance | libraries/chain/space/state/statemanage.go:95-102 | adds to the balance of an account that exists |
| StateManage.StateDB.SetAttribute | libraries/chain/space/state/statemanage.go:184-191 | sets an attribute of an account that exists: a reader finds the value under its key and all others as they were |
| StateManage.StateDB.GetAttribute | libraries/chain/space/state/statemanage.go:202-210 | the value under a key, as readers see it |
| StateManage.StateDB.SubSpaceBalance | libraries/chain/space/state/statemanage.go:147-155 | takes from the balance of a space that exists and counts in its nonce |
| StateManage.StateDB.Associate | libraries/chain/space/state/statemanage.go:357-370 | does to the two maps what association should, through the caches |
| StateManage.StateDB.CreateSpaceAndBindAddr | libraries/chain/space/state/statemanage.go:379-401 | founds the space for an old or new account, and uses a wallet id exactly for a new one |
| StateManage.StateDB.BindAddr | libraries/chain/space/state/statemanage.go:329-345 | binds an account that exists to a space that exists; the branch that would create an account is never taken |
| StateManage.StateDB.UnbindAddr | libraries/chain/space/state/statemanage.go:347-355 | unbinds, through the caches |
| StateManage.StateDB.CommitTo | libraries/chain/space/state/statemanage.go:482-491 | stores exactly the accounts that name a space, have an attribute or a balance, and the spaces that have a nonce, a balance or a bound address, as readers saw them, changed accounts encoded anew; it fails if and only if some balance is negative |
| BlockExec.LiquidationToState | libraries/chain/space/worker.go:523-540 | each report takes at most the balance of its space |
| BlockExec.BuildStep | libraries/chain/space/worker.go:561-606 | one transaction in the proposer's loop is one step of the common interpreter |
| BlockExec.ValidateStep | libraries/chain/space/worker.go:453-505 | the same in the validator's loop |
| BlockExec.ApplyTransaction | libraries/chain/space/blockchain.go:200-288 | the same in the inserter, which also deletes the report it has used |
| BlockExec.PaymentDoes | libraries/chain/space/worker.go:571-573 | kind 2: the receiver gains the value, the sender loses the cost, and nothing else changes |
| BlockExec.ChargeDoes | libraries/chain/space/worker.go:581-604 | kinds 4, 5, 7, 8 and 10 to 12: the sender loses the cost, and nothing else changes |
| BlockExec.AttributeDoes | libraries/chain/space/worker.go:574-580 | kind 3: the receiver has the attribute, the sender loses the cost, and nothing else changes |
| BlockExec.FoundingDoes | libraries/chain/space/worker.go:567-570 | kind 1 with a free space id: the receiver founds it, leaves its old space, has no balance, and gets a wallet id if it is new; nothing else changes |
| BlockExec.RefusalDoes | libraries/chain/space/worker.go:567-570 | kind 1 with a taken space id: the receiver has no balance, a new one no space; the id is used up all the same |
| BlockExec.OthersDo | libraries/chain/space/worker.go:585-605 | kind 6 and unknown kinds only count the cost |
| BlockExec.LiquidationDoes | libraries/chain/space/worker.go:591-596 | kind 9: the reports of the transaction, one after the other; accounts and ids stay |
| BlockExec.ReportDoes | libraries/chain/space/worker.go:523-540 | one report: its space gives up what is taken, which counts in the nonce unless it is nothing |
| BlockExec.TakesTheLess | libraries/chain/space/worker.go:523-540 | what is taken is the smaller of gas and balance if and only if the balance is below 2^64 or its low 64 bits are above the gas |
| BlockExec.GetAllTx | libraries/chain/space/tx_pool.go:464-485 | every pooled transaction once, with its message, in the order of the walk |
| BlockExec.OnceIsRun | libraries/chain/space/blockchain.go:200-288 | with distinct transaction hashes, deleting used reports changes nothing |
| BlockExec.RepeatedLiquidation | libraries/chain/space/blockchain.go:247-253 | without distinct hashes the loops disagree: an input |
| BlockExec.RunIds | libraries/chain/space/worker.go:542-606 | over every run space ids stay below the next index and wallet ids distinct and below theirs |
| BlockExec.ApplyLinks | libraries/chain/space/worker.go:561-606 | one transaction keeps the relation of accounts and spaces if and only if it is not such a founding |
| BlockExec.RunKeeps | libraries/chain/space/worker.go:542-606 | all through a run an account names a space exactly when that space lists it once, if and only if no transaction founds a space that something stands in the way of: it exists and the account is new, it is space 0 and another account has no space, or the account is an empty one of space 0 |
| BlockExec.RunEnds | libraries/chain/space/worker.go:542-606 | if the next space id is above all that exist, the end tells: the relation holds after the run if and only if no transaction was of that kind |
| BlockExec.RefusedThenRepaired | libraries/chain/space/worker.go:566-571 | a run that breaks the relation and repairs it, so that its end does not tell |
| BlockExec.RunWithoutZero | libraries/chain/space/worker.go:542-606 | without a space 0 no run breaks that relation |
| BlockExec.RunSpacesWritable | libraries/chain/space/worker.go:523-540 | no run overdraws a space |
| BlockExec.OverdrawnPool | libraries/chain/space/tx_pool.go:148-188 | two transactions admitted one by one that together overdraw an account |
| BlockExec.BuildBlock | libraries/chain/space/worker.go:542-660 | a block is built exactly when the pool is not empty and the run leaves no negative balance, and holds the accounts and spaces of the run that are not empty, its indices and its cost |
| BlockExec.ValidateBlock | libraries/chain/space/worker.go:436-521 | accepts if and only if spaces, account records, space index and cost are those of the validator's own run |
| BlockExec.InsertBlock | libraries/chain/space/blockchain.go:133-145 | stores the state of the inserter's run |
| BlockExec.BuildValidateInsert | libraries/chain/space/worker.go:436-660 | a block is built exactly when the pool is not empty and no account has a negative balance at the end of the run; the inserter then stores the very same accounts, spaces, indices and cost, and validator and inserter agree on the roots if no written account has two attributes |
| BlockExec.HonestRefusal | libraries/chain/space/state/account_object.go:69-82 | if some written account has two attributes, there are map walks for which an honest validator gets other records |
| SpaceChain.Build | libraries/chain/space/worker.go:542-660 | what the proposer returns extends its parent by the run of its transactions |
| SpaceChain.BlockLinks | libraries/chain/space/worker.go:542-606 | the relation of accounts and spaces holds all through a block if and only if no transaction founds what it cannot and the commit drops no account that space 0 lists |
| SpaceChain.ChainIds | libraries/chain/space/blockchain.go:133-145 | along every chain space ids stay below the next index and wallet ids distinct and below theirs |
| SpaceChain.ChainKeeps | libraries/chain/space/blockchain.go:133-145 | from any genesis with the relation, it holds after every transaction and every block of a chain if and only if every block was safe |
| SpaceChain.ChainEnds | libraries/chain/space/blockchain.go:133-145 | if the first space index is above all spaces, each block tells: the relation holds in it if and only if all blocks up to it were safe; once broken it stays broken |
| SpaceChain.ChainWithoutZero | libraries/chain/space/blockchain.go:133-145 | a chain that starts without a space 0 keeps the relation for ever, whatever its indices |
| SpaceChain.ToBlock | libraries/chain/space/genesis.go:160-208 | the genesis block holds the configured accounts and spaces, with space index 1; it exists exactly when no configured balance is negative |
| SpaceChain.NextWallet | libraries/chain/space/genesis.go:173-182 | the last entry gives the next wallet id |
| SpaceChain.ConfiguredWallets | libraries/chain/space/genesis.go:173-182 | the first entry of an address gives it its wallet id |
| SpaceChain.ConfiguredPlaced | libraries/chain/space/genesis.go:173-182 | the configured spaces exist, and every address has the space it founded last and the balance it was given last |
| SpaceChain.GenesisLinked | libraries/chain/space/genesis.go:160-208 | the configured accounts and spaces have the relation if and only if space 0 is not configured, or every address founded a space and the founder of space 0 did not found another one while it had no balance |
| SpaceChain.GenesisBlock | libraries/chain/space/genesis.go:160-208 | given that relation, the genesis block keeps it if and only if space 0 is not configured or no address is left in it without a balance |
| SpaceChain.ChainFromGenesis | libraries/chain/space/genesis.go:160-208 | a chain from any configuration without space 0 keeps the relation for ever |
| SpaceChain.GenesisSane | libraries/chain/space/genesis.go:160-208 | the relation and the space index are both right if and only if a single account is configured, in space 0 |
| SpaceChain.GenesisCommitted | libraries/chain/space/genesis.go:160-208 | and the committed block keeps them if and only if that account is given a balance |
| Feed.StepKeeps | libraries/event/feed.go:62-175 | every step of any goroutine keeps the invariant: no subscription is lost and what a Send has done adds up |
| Feed.RemovalFinds | libraries/event/feed.go:93-113 | a removal always finds its channel |
| Feed.NothingAfterUnsubscribe | libraries/event/feed.go:93-175 | under every interleaving, nothing is delivered to a channel whose subscriptions are all gone |
| Feed.DeliveredCounts | libraries/event/feed.go:118-175 | what a Send has delivered to a channel is the number of its deliveries |
| Feed.SendDeliversOnce | libraries/event/feed.go:118-175 | a finished Send has served each subscription it began with exactly once, but for those removed meanwhile, and returns that number |
| Feed.SendCanEnd | libraries/event/feed.go:118-175 | a Send that has begun can always come to its end |
| Feed.NoDeadlock | libraries/event/feed.go:93-175 | an Unsubscribe that waits can go on, or a Send can |
| ContainerLock.StepKeeps | libraries/chaincodecore/container/controller.go:79-112 | every step of any process keeps the lock table and the reference counts right |
| ContainerLock.CountIsWaitersAndHolder | libraries/chaincodecore/container/controller.go:79-112 | a reference count is the number of processes that wait for the lock or hold it |
| ContainerLock.ReleaseIsSafe | libraries/chaincodecore/container/controller.go:97-112 | whoever unlocks finds its lock in the table and holds it |
| ContainerLock.NeverTwo | libraries/chaincodecore/container/controller.go:237-257 | in no run do two processes work on the same container at once |
| ContainerLock.NoDeadlock | libraries/chaincodecore/container/controller.go:79-112 | as long as a request is under way, somebody under way can take a step |
| ContainerLock.NothingLeft | libraries/chaincodecore/container/controller.go:97-112 | once nobody is under way no lock is left in the table |
| Vrf.SortByHex | libraries/chain/vrf/vrf.go:20-49 | the in-place quicksort sorts its range by hex value and only moves elements inside it |
| Vrf.SortIsUnique | libraries/chain/vrf/vrf.go:51-54 | however a group comes in, sorting gives the same order |
| Vrf.ValidateBlock | libraries/chain/vrf/vrf.go:103-144 | a member's rank is its distance from the leader, capped at 10, and the coefficient is its power of a half; a non-member gets rank 0 |
| Vrf.RankBehindLeader | libraries/chain/vrf/vrf.go:103-144 | in a group without repetitions, who stands r places behind the leader, round the end, has rank r, or 10, and the coefficients are 1, 1/2, 1/4 and so on to 1/1024 |
| Vrf.OneLeader | libraries/chain/vrf/vrf.go:103-144 | exactly one member of a group without repetitions has rank 0 |
| Vrf.RanksPermute | libraries/chain/vrf/vrf.go:103-144 | uncapped ranks are a permutation of the positions |
| Vrf.TwoValidators | libraries/chain/vrf/vrf.go:51-144 | two validators that know the same members agree on the sorted group and on every rank |
| Vrf.ShortRuns | libraries/chain/vrf/vrf.go:146-199 | a coin's validator is chosen by a coin at most four places before it, with consecutive ids in between |
| Vrf.CountLeft | libraries/chain/vrf/vrf.go:146-199 | the count starts at 0, and a run that breaks leaves its count to the next |
| Vrf.RunLength | libraries/chain/vrf/vrf.go:146-199 | a coin that drew its validator shares it with exactly as many followers as the count leaves to four; the next one draws again |
| Vrf.Vrf.ValidateCoin | libraries/chain/vrf/vrf.go:146-199 | the loop assigns every coin its validator and returns those of the caller |
| Vrf.Vrf.CheckValidateCoin | libraries/chain/vrf/vrf.go:83-101 | accepts a non-empty list exactly when all its coins are assigned to the address |
| Vrf.OneValidator | libraries/chain/vrf/vrf.go:146-199 | for distinct coin ids every coin is validated by exactly one address, a member of the group |
| ValidateGroup.RandomPerm | libraries/chain/validategroup/validategroup.go:116-127 | the swaps give distinct positions of the group |
| ValidateGroup.CommitteeIs | libraries/chain/validategroup/validategroup.go:640-661 | the selection is a committee: ten distinct members, or all of a smaller group |
| ValidateGroup.FirstMember | libraries/chain/validategroup/validategroup.go:640-661 | the first seat of an epoch goes to the member the first number of that epoch names |
| ValidateGroup.Seats | libraries/chain/validategroup/validategroup.go:116-127 | every seat of every epoch goes to the member left at the place the drawn number names |
| ValidateGroup.Group.Add | libraries/chain/validategroup/validategroup.go:294-316 | only an address never seen gets in, and only if it is later than the last; one turned away is remembered and stays out |
| ValidateGroup.Group.Reset | libraries/chain/validategroup/validategroup.go:420-492 | at the turn of an epoch nobody waiting is lost, nobody is there twice, and no committee outlives its group |
| ValidateGroup.Group.SelectConsensus | libraries/chain/validategroup/validategroup.go:620-663 | the result is always a committee of the present group; it is the one of the asked epoch if the group is small, or that epoch is not 0, or nothing was stored, or what was stored is of epoch 0 |
| ValidateGroup.StaleCommittee | libraries/chain/validategroup/validategroup.go:622-629 | two epochs with different committees |
| ValidateGroup.StaleRun | libraries/chain/validategroup/validategroup.go:620-663 | asked for epoch 1 and then for epoch 0, a group of ten answers the second with the committee of epoch 1, which is not that of epoch 0 |
| Sponge.LoadedFromTail | libraries/crypto/sha3/sha3.go:98-121 | padding the unfilled block and permuting once gives the state that section 4 of FIPS 202 asks for |
| Sponge.OneBlock | libraries/crypto/sha3/sha3.go:98-121 | a message shorter than a block is permuted once, behind it the domain byte, zeros and the last bit; the digest is the front of the result |
| Sponge.FullBlock | libraries/crypto/sha3/sha3.go:98-121 | a block but one octet has both ends of the padding in one octet; a full block is permuted before the padding |
| Sponge.TwoSqueezes | libraries/crypto/sha3/sha3.go:160-181 | what one block does not give comes from the state permuted again |
| Sponge.XorTwice | libraries/crypto/sha3/sha3.go:79-94 | xoring a block in twice gives the state back, and into zeros the block |
| Sponge.State.Write | libraries/crypto/sha3/sha3.go:125-157 | writing in any pieces absorbs their concatenation |
| Sponge.State.PadAndPermute | libraries/crypto/sha3/sha3.go:98-121 | the padded state is that of the whole message |
| Sponge.State.Read | libraries/crypto/sha3/sha3.go:160-181 | what has been read is always a prefix of the digest of what was written |
| Sponge.State.Sum | libraries/crypto/sha3/sha3.go:185-192 | the digest of what was written so far, after a prefix, and the sponge stays as it was; once octets were read, the digest from as many octets before that point as the rate is below 168, and a panic exactly when the block does not have so many |
| Sponge.State.Stands | libraries/crypto/sha3/sha3.go:160-181 | the place in the block that decides it is the number of octets read modulo the rate |
| Sponge.HashInPieces | libraries/crypto/sha3/sha3.go:125-192 | however a message is cut into writes, the digest is the one-shot digest |
| Sponge.ReadInPieces | libraries/crypto/sha3/sha3.go:160-181 | however the reads are cut, the pieces make up one long read |
| Merkle.CalMerkel | libraries/common/merkle.go:7-34 | the root of the tree, and the proof of a leaf appended to the list when one is wanted |
| Merkle.VerigyMerkel | libraries/common/merkle.go:36-54 | accepts exactly when folding the proof over the leaf gives the root |
| Merkle.Root | libraries/common/merkle.go:60-88 | the loop that reuses its buffers computes the recursive root |
| Merkle.SmallTrees | libraries/common/merkle.go:7-34 | the roots of one to four leaves, in terms of the digest alone |
| Merkle.TopOfHalves | libraries/common/merkle.go:7-34 | the root of two full trees of one height is the digest of their roots, the left one first |
| Merkle.ProofVerifies | libraries/common/merkle.go:7-54 | the proof of every leaf of every non-empty list verifies |
| Merkle.VerifiedLeaf | libraries/common/merkle.go:36-54 | a verifying proof of the right length is the tree's own, for the tree's own leaf, given no collisions on the pairs hashed |
| Merkle.RootFixesLeaves | libraries/common/merkle.go:7-34 | lists of one length with one root are equal, given no collisions |
| Merkle.RepeatedLeaf | libraries/common/merkle.go:11-13 | lists of different lengths can share a root |

## Left out

- keccakF1600, its assembly and the unaligned xor: the permutation is a parameter of the sponge.
- TrieIterator.Iterate: walks a trie of values; loading nodes on the way, their errors and `Parent()` are not modelled, and the
  check against `emptyState` is not either.
- TrieDifference.Difference: the iterator's node count is not modelled. The union iterator is not part of this model.
- Scheduler.Sync.Process: the queue, its priorities and `Missing` are not modelled, so nothing is said about the order of
  requests; results are not compared with their hashes, as in the code.
- Scheduler.Sync.AddSubTrie: called from outside, without a parent; a sub-trie registered by a callback has no callback of its own.
- Scheduler.Sync.Commit: a node that lost its references to a failing callback, and a declared raw entry, are exempt from
  closure (`g.raws`); `TrieSync.ClosedExactly` says what the lost nodes cost.
- TrieDownload.Download: deliveries need not hash to their key, only be right for the nodes of the one trie.
- Scheduler.Fetch: the missing entries are those without data, not what is left in the queue, and one is delivered at a time.
- TrieProof.GetIn: an empty key at a full node gives nothing, where the code panics; over a store that
  agrees with the trie that never happens (`TrieProof.NeverOutOfKey`).
- RlpEncoder.EncBuf.ToWriter: the writer does not fail, and takes all it is given.
- MerkleTrie.Trie.Commit: a failing database write is not modelled.
- BlockExec.BuildBlock: headers, signatures, groups, votes and timing are left out, and a transaction carries its sender and
  cost. Transaction data is not empty; the code indexes its first byte. Every transaction has a receiver; the code
  dereferences it for kinds 1 to 3 even if it has none.
- BlockExec.RunIds: wallet ids are 64-bit numbers and the result asks that a run does not use them up.
- StateManage.StateDB.CommitTo: one commit; objects changed after it are not marked dirty again, because `onDirty` is cleared.
- SpaceState: addresses are compared only, so numbers stand for them; space ids are natural numbers, which the code
  truncates to 64 bits in its tables. Failing reads of the state tries are left out.
- Feed.SendDeliversOnce: the first round of non-blocking sends and the select are both steps `Deliver`; type checks of
  channels and panics on wrong types are left out.
- ContainerLock.NeverTwo: a virtual machine's own work is one step; the caller that stops waiting when its context is
  cancelled is left out, since the goroutine goes on.
- Vrf.ValidateBlock: the coefficient is a real number, not a 32-bit float. `MultipleValidateCoin` is left out: it repeats `ValidateCoin`
  for several draws.
- ValidateGroup.Group.SelectConsensus: the coin and transaction groups repeat the code for the space group and are left out, and so
  are the stored copies of the lists. Returned slices are values, so that a later selection does not show through them.
- Merkle.Root: lists are values; that the loop overwrites the caller's array is not modelled.
- RlpStream.DecodeBytes: decodes into nested items of strings and lists; the dispatch on Go types by reflection is left out.
- RlpEncoder.EncBuf.WriteItem: the same for encoding; big integers, booleans and custom encoders are left out.
- secp256k1, BLS and zk-SNARK bindings, networking, gRPC, the console, node start-up and configuration: foreign calls and plumbing.
- Chaincode peers and shims, and the pending and queue maps of the transaction pool, which the live path never fills.
