# A verified model of LoFiRe

LoFiRe stores content as encrypted Merkle trees of blocks ("objects"), links
commits into branches, and lets clients exchange blocks with a broker. This
project models five of its parts and proves what they are for.

**Objects** (`Types`, `Bare`, `Sizes`, `Objects`, `ObjectOps`, `HashStore`, and the
proofs in `RoundTrip`, `Storing`, `Copying`, `TreeShape`, `Building`, `Loading`,
`Errors`). `Objects` holds
the mathematical description of an object: the tree over its leaves, the layout a
store gives it, the walk that reads it. `ObjectOps` holds the program: loops that
push to vectors, insert at the front, and reuse the arguments passed in, each proved
to compute what `Objects` describes. The two traversals, `load_tree` (downwards,
reversing) and `collect_leaves` (downwards, by index arithmetic), share no code; the
proofs show they agree on the layout.

**Branches and commits** (`Branches`, `Commits`, `Readings`): the depth-first walks of `sync_req`
and `verify_deps`, with their shared visited sets, against reachability.

**The LMDB store** (`RepoStore`, `StoreInvariants`, `Panics`): a class with the four tables, one
method per operation, and the invariant that ties the tables together. Each failed
`unwrap` is an outcome `Panic`; the proofs say exactly when it occurs.

**The broker's object operations and the client's** (`Needs`, `Pinning`, `Broker`):
loading through the store, whose `get` is a mutator, pinning, streaming, rebuilding.

**Block streams** (`Protocol`, `Streams`): a step relation with a direct writer, a
channel drained by a second writer, the wire, the reader and one actor per request.
`Delivery` puts the last two together, from the broker's store to the client's object.

## How it is modelled

- A digest is the term that was hashed (`Merkle` of children, deps, expiry and
  content) or a `Foreign` number. Two blocks have one id only if they are the same
  block up to key and cache, and a block's children are smaller terms.
- The keystream, the keyed hash and the key derivation are arbitrary functions, held
  in a `Suite`. The cipher is XOR with the keystream; that it undoes itself is proved.
  `Suite.Sound` says that object contents survive serialization and that a serialized
  content is never empty.
- BARE is modelled byte by byte for block contents and for blocks; in a serialized block
  the 32 bytes of a digest are those of an arbitrary function.
- `as f32` is rounding to 24 significant bits, ties to even.
- Randomness is absent; the clock gives an arbitrary time above 0; the size of a Rust
  value in memory, which `HashMapRepoStore::del` reports, is a parameter.
- Members are specified twice over: a method is proved equal to a function of its
  inputs or of the old state, and the lemmas say what that function achieves.

## What does not hold, and exactly when it does

- The original keeps a dep list of more than eight ids in an object of its own, whose
  blocks are not among those `save` writes. `Loading.SaveThenLoad` states that an
  object loads back exactly when it has at most eight deps or the store holds those
  blocks for another reason; `Loading.DepListLost` gives inputs that fail. Nor do
  `get_block` and `sync_branch` send those blocks: a client that stores what it was sent
  loads an object or a commit exactly if all the blocks it needs, dep-list objects
  included, are among those sent (`Broker.StreamRebuilds`, `Broker.SyncedCommitsLoad`);
  `Broker.DepListNotStreamed` and `Broker.DepListNotSynced` give inputs that fail. Nor
  does `pin_object` pin them (`Broker.PinProtectsIff`).
- The comment on `set_pin` (lofire-store-lmdb/src/repostore.rs:245-247) says that a pin
  does not override the expiry. For blocks that are both synced and pinned it does worse:
  `del`, and with it `remove_expired` and `del_object`, panics on them, since the code
  deletes an LRU entry that pinning has removed. `StoreInvariants.DelIsExact`,
  `StoreInvariants.RemoveExpiredIsExact` and `Broker.DelObject` say exactly when;
  `Panics.PinnedExpiryPanics` gives the input.
- `has_been_synced` keeps the tables in step exactly when the block is stored and the
  time is above 0, or the block was synced already (`StoreInvariants.SyncedKeepsIff`).
  Called otherwise for an unpinned block, it makes an eviction panic: for a block that is
  not stored, the next one that comes to its entry (`Panics.SyncedUnstoredPanics`); for a
  stored block at time 0, the one after the next (`Panics.SyncedAtZeroPanics`). For a
  pinned block the next eviction does not panic (`Panics.SyncedPinnedEvicts`), but once it
  is unpinned the tables are as if it had been unpinned first (`Panics.SyncedThenUnpinned`).
  `Panics.EvictionPanicsIff` is the rule behind these.
- `verify_deps` visits an id once, whatever key it is referred to with. If the references
  it should follow read each id in one way, it finds everything (`Commits.VerifyDeps`).
  If one id is followed under two keys that open it as two commits, it looks at the first
  only, and answers Ok even if the other lacks its body: `Readings.SecondReadingOverlooked`.
  `Readings.SecondReadingExists` gives such an input for every sound serialization.
- A sync leaves a peer with all commits below our heads exactly if it already held those
  that its filter accepts (`Branches.SyncCompletes`). A false positive of the filter
  loses a commit; `Branches.FalsePositiveLoses` gives an input.
- `copy` panics when the root key is not known, and when no leaf is found
  (`Copying.CopyKeeps`; `Copying.LeaflessCopyPanics` gives the input). It always puts a
  tree over the leaves, so the copy of a one-block object has two blocks. It keeps
  children that a leaf may have, and such a copy does not load back as it is
  (`Copying.CopyLoads`; `Copying.OddLeafCopyLost` gives the input).
- lofire/src/types.rs documents the expiry as set for the root block only; the code
  sets it on every block, and so does the model.

## Model

| member | source | states |
|---|---|---|
| Types.Suite.CryptInvolutive | lofire/src/object.rs:84-92 | decrypting with a block's key gives back what was encrypted, for every keystream |
| Bare.VarUintRoundTrip | lofire/src/types.rs:153-161 | a BARE uint reads back as written, whatever follows it |
| Bare.KeysRoundTrip | lofire/src/types.rs:153-161 | the key list of an internal node reads back whole |
| Bare.ContentRoundTrip | lofire/src/object.rs:435-443 | decrypted block content parses to the node that was serialized |
| Bare.BlockSize | lofire/src/types.rs:184-220 | the number computed is the length of the serialized block, for every hash |
| Bare.BlockRoundTrip | lofire-store-lmdb/src/repostore.rs:55-62 | a serialized block reads back with its children, deps, expiry and content |
| Bare.SerializationTellsApart | lofire/src/block.rs:39-43 | under a hash without collisions, blocks that serialize alike are alike but for cached id and key |
| Sizes.ValidValueSizeIsInteger | lofire/src/store.rs:43-49 | the single-precision page computation equals the integer one for every size whose header addition does not overflow |
| Sizes.ValidValueSizeFits | lofire/src/store.rs:43-54 | the size is between one page and the maximum, has room for what was asked, wastes less than a page, and is a fixpoint |
| Sizes.ValidValueSizeMonotone | lofire/src/store.rs:43-49 | asking for more never gives less |
| Sizes.ArityRange | lofire/src/object.rs:224-226 | the tree arity lies between 57 and 31770, and both ends are reached |
| Objects.ParentLevelSize | lofire/src/object.rs:133-154 | a level over n nodes has n/arity parents, rounded up |
| Objects.BelowIsLower | lofire/src/object.rs:283-306 | the ids `load_tree` asks for next are strictly lower in the digest order, so it terminates |
| Objects.CollectedLeaves | lofire/src/object.rs:463-474 | each leaf collected is one of the object's blocks, with the key that opens it set |
| ObjectOps.MakeTree | lofire/src/object.rs:126-163 | the recursion over levels builds the tree described by `Objects.Tree`, whose shape `TreeShape.Levels` states |
| ObjectOps.MakeLevel | lofire/src/object.rs:133-154 | the loop over chunks of nodes builds the level of parents, deps only on a sole parent |
| ObjectOps.MakeObjectDeps | lofire/src/object.rs:99-123 | up to eight deps are listed, more become a reference to an object that is built and dropped |
| ObjectOps.NewObject | lofire/src/object.rs:176-233 | the blocks of a new object, which `Building.NewShape` describes one by one |
| ObjectOps.MakeLeaves | lofire/src/object.rs:210-220 | the loop over chunks makes one leaf for each, in order |
| ObjectOps.SaveObject | lofire/src/object.rs:337-347 | the store after `save`, one put for each id, in order |
| ObjectOps.LoadLevel | lofire/src/object.rs:283-301 | the loop with front insertion collects the stored blocks in level order, the absent ids, and the children, reversed |
| ObjectOps.LoadTree | lofire/src/object.rs:283-306 | the recursion with reversed levels gives the layout, deepest level first, and all absent ids |
| ObjectOps.LoadObject | lofire/src/object.rs:278-334 | loading by id: missing blocks, else root key set and dep list resolved |
| ObjectOps.LoadObjectDeps | lofire/src/object.rs:318-333 | dep lists are read through their own object, with its errors |
| ObjectOps.CollectLevel | lofire/src/object.rs:417-483 | the loop over one level opens each block in turn, the first error wins, and the sinks are extended |
| ObjectOps.CollectLeaves | lofire/src/object.rs:396-495 | the recursion by index gives the leaves and the content in order, or the error of the code |
| ObjectOps.LeavesOf | lofire/src/object.rs:498-511 | `leaves` gives the leaves of the walk from the root |
| ObjectOps.ContentOf | lofire/src/object.rs:514-539 | `content` gives the parsed content, and each failure the error the code has for it |
| ObjectOps.CopyObject | lofire/src/object.rs:235-273 | the copy, its error, or the panic of an absent key or leaf; `Building.CopyShape` describes its blocks |
| ObjectOps.ExpireAll | lofire/src/object.rs:248-253 | every leaf gets the new expiry, and nothing else changes |
| HashStore.HashMapRepoStore.Get | lofire/src/store.rs:78-83 | the stored block or not found |
| HashStore.HashMapRepoStore.Put | lofire/src/store.rs:85-91 | the block is stored under its id, without its key, replacing what was there |
| HashStore.HashMapRepoStore.Del | lofire/src/store.rs:93-97 | the block is given back with its size and removed, all others stay |
| RoundTrip.ChunksFlatten | lofire/src/object.rs:210-220 | the chunks put together, in order, are the bytes that were cut |
| RoundTrip.ChunkBounds | lofire/src/object.rs:210-220 | no chunk is empty or longer than the chunk size, and all but the last have it |
| RoundTrip.CollectTree | lofire/src/object.rs:396-495 | the walk by index arithmetic from the top of a built tree comes down to exactly the references of its leaves |
| RoundTrip.WalkTree | lofire/src/object.rs:396-495 | an object laid out as leaves and tree yields exactly the leaves and their content |
| RoundTrip.WalkNew | lofire/src/object.rs:176-233 | reading a new object yields its leaves and the serialized content it was made from |
| Storing.CollectAlike | lofire/src/object.rs:396-495 | reading does not depend on the cached ids and keys of blocks |
| Storing.LoadTree | lofire/src/object.rs:283-306 | from a store that holds a tree, the layout is the tree's blocks level by level |
| Storing.LoadNewBlocks | lofire/src/object.rs:176-306 | a store gives back the blocks of a new object in order and with repetitions, nothing missing, exactly when it holds them all |
| Storing.LoadDepList | lofire/src/object.rs:99-123 | a long dep list comes back exactly when the blocks of its object are stored, else blocks are missing |
| Storing.RoundTrips | lofire/src/object.rs:176-539 | from any store holding the blocks, load gives back blocks, deps and content if and only if the dep list is short or its object stored |
| Copying.CollectYields | lofire/src/object.rs:396-495 | for any blocks whatever, the collected content is what the collected leaves decrypt to, in order |
| Copying.CopyKeeps | lofire/src/object.rs:235-273 | exact conditions of panic and error; otherwise same content and deps, the new expiry on every block, the same leaves in order, and a tree over them even if there is only one |
| Copying.CopyLoads | lofire/src/object.rs:235-334 | a copy loads only where its blocks are stored; where its deps resolve too, it comes back as it is, with the content of the original, exactly if no leaf has children |
| Copying.LeaflessCopyPanics | lofire/src/object.rs:235-245 | `copy` of an object that is one internal node without children panics |
| Copying.OddLeafCopyLost | lofire/src/object.rs:235-273 | an object of one data block with a child is copied, but from no store does the copy load back as it is |
| TreeShape.CeilDivTwice | lofire/src/object.rs:126-163 | rounding up twice is rounding up once by the product, so level sizes are ceil(n/a^k) |
| TreeShape.Levels | lofire/src/object.rs:126-163 | levels of ceil(n/a), ceil(n/a^2), ... blocks, each the parents of the whole level below in order, all but the last parent with `a` children, up to a single root, which alone has the deps |
| TreeShape.TreeHeight | lofire/src/object.rs:126-163 | for two leaves or more, a^(h-1) < n <= a^h |
| TreeShape.NewFits | lofire/src/object.rs:185-226 | every block of a new object serializes to at most the valid size, and so to at most the maximum, whatever its deps, in bytes of its serialization |
| TreeShape.CopyFits | lofire/src/object.rs:235-273 | every block of a copy of a new object serializes within the valid size of the original, whatever the expiries, in bytes of its serialization |
| Building.NewShape | lofire/src/object.rs:176-233 | every block has the given expiry and the keyed hash of its plain text as key; one block exactly if 16 bytes, 33 for each dep and the content fit the valid size; else ceil(bytes/(size-16)) leaves, each holding its chunk, under a tree of arity (size-282)/66; the root has the deps or a reference to an object made of them |
| Building.EqualChunksShare | lofire/src/object.rs:69-97 | two leaves made under the same keys and expiry are one block exactly if they hold the same chunk |
| Building.CopyShape | lofire/src/object.rs:235-273 | the copy has the leaves unchanged but for expiry and id, and over them a tree whose arity is that of the valid size of the first leaf, made under the keys given to `copy` |
| Building.CopyOfNewShape | lofire/src/object.rs:235-273 | the copy of a new object has as many blocks and, over two leaves or more, the same arity, unless the object has one block: then two |
| Loading.MissingIsFrontier | lofire/src/object.rs:283-306 | the ids `load_tree` misses are exactly those wanted under the root through stored blocks and not stored |
| Loading.LoadReportsFrontier | lofire/src/object.rs:283-315 | with plain deps, load fails exactly when that frontier is not empty, and reports exactly it |
| Loading.LoadMissesAbsent | lofire/src/object.rs:278-334 | a report of missing blocks is non-empty and lists only blocks that are not stored, dep-list objects included |
| Loading.CollectStored | lofire/src/object.rs:283-495 | `collect_leaves` finds each level where `load_tree` put it, and never mistakes a block or runs out of blocks |
| Loading.LoadedObjectReads | lofire/src/object.rs:278-495 | a loaded object never fails with a wrong block id or children unless a data chunk with children is stored under it |
| Loading.SaveHolds | lofire/src/object.rs:337-347 | after `save` the store holds every block of the object, and every block it held, unchanged |
| Loading.SaveThenLoad | lofire/src/object.rs:176-347 | saved to any store and loaded back, an object is whole if and only if it has at most eight deps or its dep-list blocks are there anyway |
| Loading.DepListLost | lofire/src/object.rs:99-123 | a one-block object with more than eight deps, saved to an empty store, does not load |
| Errors.FirstErrorWins | lofire/src/object.rs:408-483 | a level fails with what its first failing block fails with: a wrong id, then one that does not parse, then a wrong number of keys |
| Errors.RootDecides | lofire/src/object.rs:408-539 | which error, or which content, the root alone decides on: no key, unparsable, keys and children that differ, too many children, a misplaced first child, undecodable content |
| Errors.LoadGivesLayout | lofire/src/object.rs:308-320 | a loaded object is the layout with the key set on the root only |
| Errors.LoadReports | lofire/src/object.rs:278-334 | load reports exactly the missing frontier if there is one, else what is wrong with the dep-list object, else it succeeds |
| Errors.ChildrenReportedFirst | lofire/src/object.rs:283-306 | the missing children of a stored root are reported before anything deeper, the last child first |
| Errors.DepRefReads | lofire/src/object.rs:322-331 | a dep-list reference gives the list that was made into the object, and invalid deps for an object of another kind |
| Errors.UnloadableCommit | lofire/src/commit.rs:121-158 | missing blocks are passed on, any other failure to load is a parse error, as a commit and as a body |
| Errors.UnparsableCommit | lofire/src/commit.rs:121-158 | an object that loads but cannot be read is a parse error, as a commit and as a body |
| Branches.LoadBranch | lofire/src/branch.rs:111-148 | one walk with a shared visited set explores exactly what it newly visits, and fails only on a reached commit that is corrupt, with the error of loading it |
| Branches.WalkIsExact | lofire/src/branch.rs:111-148 | a walk from a head visits exactly the commits with deps reachable without passing a stop |
| Branches.ReachesMeans | lofire/src/branch.rs:111-148 | what a walk collects loads, has deps, is not one to stop at, and is a dep of one collected or the start |
| Branches.ReachesGrows | lofire/src/branch.rs:111-148 | everything of that kind is collected |
| Branches.CollectHeads | lofire/src/branch.rs:157-175 | the loop over heads collects the union, and fails exactly when some head does not load or some walk fails, with the error of the first |
| Branches.PruningIsExact | lofire/src/branch.rs:111-177 | stopping at their heads changes nothing of the difference of the two ancestries |
| Branches.SyncReq | lofire/src/branch.rs:99-196 | the answer is exactly our ancestors less theirs less what the filter accepts; the error cases exactly, and the error: that of the first head that fails, ours before theirs |
| Branches.MissingHeadReported | lofire/src/branch.rs:159-171 | a first head that is not stored is what is reported missing |
| Branches.SyncCompletes | lofire/src/branch.rs:157-195 | a peer with its ancestors and the roots has every commit below our heads after the sync if and only if it held the unsynced commits its filter accepts |
| Branches.FalsePositiveLoses | lofire/src/branch.rs:183-194 | a commit over a root, a peer with the root only and a filter that accepts everything: the commit is not sent |
| Commits.FetchesBack | lofire/src/commit.rs:121-158 | a reference to an object made of some content reads that content back, if and only if its deps are few or its dep-list object is stored too; else blocks are missing |
| Commits.CommitLoadsBack | lofire/src/commit.rs:121-141 | a commit made into an object loads from its reference as that commit, on the same condition; any other kind of content is a deserialize error |
| Commits.BodyLoadsBack | lofire/src/commit.rs:144-158 | `load_body` gives the body that was made into the object referred to, a deserialize error for any other kind of content, missing blocks else |
| Commits.LoadBranch | lofire/src/commit.rs:266-311 | the sets after the walk are those of the recursion `Commits.Visit`; it accounts for every new id and every lack, leaves everything it has newly looked at settled, and fails only on a reached commit that is malformed; no commit graph is assumed acyclic |
| Commits.LoadRefs | lofire/src/commit.rs:291-307 | the loop over deps and acks settles each of them, or fails on a malformed commit |
| Commits.WalkIsExact | lofire/src/commit.rs:266-314 | if the references followed read each id in one way, a finished walk has met nothing malformed, noted exactly the blocks missing for what is reached, and visited exactly the ids reached |
| Commits.VerifyDeps | lofire/src/commit.rs:262-321 | for all inputs: failures, missing blocks and ids returned are justified by what is reached; the body and every ack and dep of the commit are accounted for, each loading and returned, or its missing blocks reported. If the references followed read each id in one way, so is everything reached: each outcome occurs exactly when it should, with exactly the blocks missing or exactly the ids reached |
| Commits.BranchEndsWalk | lofire/src/commit.rs:280-299 | nothing below a Branch commit is looked at |
| Commits.AcksComeFirst | lofire/src/commit.rs:217-221 | acks are followed before deps: a malformed first ack is what the walk fails on |
| Readings.SecondReadingOverlooked | lofire/src/commit.rs:266-321 | with two followed references to one id under two keys, the second opening a commit without its body, the walk ends Ok with just that id, though something reached lacks a block |
| Readings.SecondReadingExists | lofire/src/commit.rs:266-321 | such an input for every sound serialization and all hashes: a keystream, a store of two blocks and a commit |
| Commits.WalkVouches | lofire/src/commit.rs:266-321 | a walk that noted nothing missing has visited only ids of commits it has read, and all it read have their bodies, deps and acks |
| Commits.Listed | lofire/src/commit.rs:315-320 | the set of ids as a list, each once |
| RepoStore.LmdbRepoStore.Get | lofire-store-lmdb/src/repostore.rs:44-105 | a read returns the stored block and does to the tables what `StoreInvariants.GetIsExact` states |
| RepoStore.LmdbRepoStore.Put | lofire-store-lmdb/src/repostore.rs:110-143 | the tables after `put` |
| RepoStore.LmdbRepoStore.Del | lofire-store-lmdb/src/repostore.rs:148-193 | the tables after `del`, the block and its serialized size (`StoreInvariants.DelReportsBytes`); a panic changes nothing |
| RepoStore.LmdbRepoStore.SetPin | lofire-store-lmdb/src/repostore.rs:248-308 | the tables after `set_pin` |
| RepoStore.LmdbRepoStore.HasBeenSynced | lofire-store-lmdb/src/repostore.rs:310-371 | the tables after `has_been_synced` |
| RepoStore.LmdbRepoStore.RemoveExpired | lofire-store-lmdb/src/repostore.rs:375-399 | the expired entries are read latest first, then deleted one by one |
| RepoStore.LmdbRepoStore.RemoveLeastUsed | lofire-store-lmdb/src/repostore.rs:404-430 | the LRU is read oldest first and deleted from until enough is gone |
| RepoStore.ReadExpired | lofire-store-lmdb/src/repostore.rs:378-394 | the part of the expiry index up to now, each entry once |
| RepoStore.ReadAll | lofire-store-lmdb/src/repostore.rs:408-420 | the whole index in time order, each entry once |
| StoreInvariants.GetKeeps | lofire-store-lmdb/src/repostore.rs:44-105 | `get` answers from the main table, keeps the tables in step, and changes only times of last use |
| StoreInvariants.GetIsExact | lofire-store-lmdb/src/repostore.rs:66-90 | a read of a stored, synced block makes its last use the time of the read and, unpinned, moves its one LRU entry there; nothing else changes, and nothing at all for other blocks |
| StoreInvariants.ReadIsEvictedLast | lofire-store-lmdb/src/repostore.rs:66-90 | a block read later than all others is evicted only with all of them |
| StoreInvariants.PutKeeps | lofire-store-lmdb/src/repostore.rs:110-143 | `put` adds just its block and its expiry, and keeps the tables in step |
| StoreInvariants.DelIsExact | lofire-store-lmdb/src/repostore.rs:148-193 | `del` takes a stored block out of all four tables and nothing else, and panics exactly on a block synced and pinned |
| StoreInvariants.DelReportsBytes | lofire-store-lmdb/src/repostore.rs:192 | the size reported is the number of bytes the block is serialized to |
| StoreInvariants.SetPinKeeps | lofire-store-lmdb/src/repostore.rs:248-308 | `set_pin` never panics, sets just that pin, leaving last use and synced mark and all else, and keeps the tables in step |
| StoreInvariants.SyncedKeepsIff | lofire-store-lmdb/src/repostore.rs:310-371 | `has_been_synced` keeps the tables in step if and only if its caller's side is met |
| StoreInvariants.SyncedIsExact | lofire-store-lmdb/src/repostore.rs:310-371 | a block not synced before is marked synced and last used at the time given, keeps its pin, and is listed in the LRU unless pinned; nothing else changes |
| StoreInvariants.DelAllIsExact | lofire-store-lmdb/src/repostore.rs:375-399 | deleting a list removes exactly it, or, exactly if one of it is synced and pinned, panics with those before the first such gone |
| StoreInvariants.RemoveExpiredIsExact | lofire-store-lmdb/src/repostore.rs:375-399 | exactly the blocks expired at the cut-off go and no other entry changes; it panics exactly if one of them is synced and pinned, with those it comes to before the first such gone |
| StoreInvariants.DelUntilIsExact | lofire-store-lmdb/src/repostore.rs:404-430 | as many are deleted, in order, as reaching the size takes, and their sizes are summed |
| StoreInvariants.RemoveLeastUsedIsExact | lofire-store-lmdb/src/repostore.rs:404-430 | never panics; removes a prefix of the LRU in time order, only synced and unpinned blocks; the last removal was necessary, and it stops at the size or with the LRU empty |
| StoreInvariants.StepKeeps | lofire-store-lmdb/src/repostore.rs:44-430 | every operation keeps the tables in step, and panics exactly on deleting a block synced and pinned |
| StoreInvariants.RunKeeps | lofire-store-lmdb/src/repostore.rs:44-430 | so does every run: no index deletion misses its entry otherwise |
| Panics.PinnedExpiryPanics | lofire-store-lmdb/src/repostore.rs:148-193 | an expiring block, put, declared synced and pinned, makes `del` and every `remove_expired` from its expiry on panic |
| Panics.EvictionPanicsIff | lofire-store-lmdb/src/repostore.rs:404-430 | an eviction panics if and only if it comes to an id of the LRU that the main table lacks |
| Panics.SyncedUnstoredPanics | lofire-store-lmdb/src/repostore.rs:310-371 | after an unpinned block that is not stored is declared synced, an eviction panics if and only if it comes to its entry |
| Panics.SyncedPinnedEvicts | lofire-store-lmdb/src/repostore.rs:310-371 | after a pinned block is declared synced, stored or not, the next eviction does not panic |
| Panics.SyncedThenUnpinned | lofire-store-lmdb/src/repostore.rs:248-371 | declaring a pinned block synced and unpinning it comes to the same as unpinning it first |
| Panics.SyncedAtZeroPanics | lofire-store-lmdb/src/repostore.rs:148-193 | after a stored, unpinned block is declared synced at time 0, the next eviction deletes it but keeps its LRU entry, and the one after that panics |
| Needs.LayoutAgrees | lofire/src/object.rs:283-306 | stores that both hold what is wanted under some roots lay it out alike |
| Needs.LoadAgrees | lofire/src/object.rs:278-334 | an object loads alike from every store that holds what it needs, dep-list objects included |
| Needs.NeedsAreStored | lofire/src/object.rs:278-334 | what a loadable object needs is stored, and stays the same as the store grows |
| Needs.OnlyMissing | lofire/src/object.rs:278-334 | from a part of a store that loads an object nothing can go wrong but missing blocks |
| Pinning.StepSpares | lofire-store-lmdb/src/repostore.rs:44-430 | a pinned block stays stored and pinned through every operation that does not delete, unpin or expire it |
| Pinning.PinnedSurvives | lofire-store-lmdb/src/repostore.rs:248-430 | an object whose needs are pinned loads the same after every such run, whatever is evicted |
| Pinning.UnpinnedMayBeLost | lofire-store-lmdb/src/repostore.rs:310-430 | if anything needed is not pinned, some such run loses the object |
| Pinning.SurvivesIffPinned | lofire-store-lmdb/src/repostore.rs:248-430 | it survives every such run if and only if all it needs is pinned |
| Broker.LoadFrom | lofire-broker/src/server.rs:636-709 | `load` through a store whose reads change it gives what the blocks say, and reads exactly what the object needs: each synced block of it becomes last used when read, and nothing else changes |
| Broker.PinObject | lofire-broker/src/server.rs:661-684 | the blocks read are those needed; exactly the blocks of the object become pinned, last use, synced marks and all else staying as the reads left them; or it is not found and no pin changes |
| Broker.PinProtectsIff | lofire-broker/src/server.rs:661-684 | a pinned object survives every sparing run if and only if its deps are plain or its dep-list object's needs are pinned too |
| Broker.UnpinObject | lofire-broker/src/server.rs:686-709 | the blocks read are those needed; exactly the blocks of the object become unpinned, shared ones included, all else staying as the reads left it |
| Broker.DelObject | lofire-broker/src/server.rs:636-659 | the blocks read are those needed; exactly the blocks of the object go, out of all tables; panics exactly if one of them is synced and pinned, with the blocks before the first such gone |
| Broker.DedupIds | lofire-broker/src/server.rs:745-765 | deduplication lets every id not sent before through exactly once |
| Broker.DedupOrder | lofire-broker/src/server.rs:745-765 | in the order of the input, each at its first occurrence |
| Broker.SendBlocks | lofire-broker/src/server.rs:753-764 | the loop with its shared set sends each new block once, in order, and marks it |
| Broker.GetBlock | lofire-broker/src/server.rs:737-774 | the block alone, or every block of its object once each in load order, or not found; exactly what is needed is read, and so used |
| Broker.SyncBranch | lofire-broker/src/server.rs:776-813 | the stream holds exactly the blocks of the commits the peer lacks, each once, over all commits together; exactly what these need is read, and so used |
| Broker.PutBlock | lofire-broker/src/server.rs:725-735 | the block is added, and none lost or changed |
| Broker.PutObject | lofire-broker/src/connection.rs:285-312 | exactly the blocks of the new object are added, the id returned is its id, and no block changes |
| Broker.RebuildObject | lofire-broker/src/connection.rs:257-271 | the client's loop over the stream and its load, with its error codes |
| Broker.ClientLoadsIff | lofire-broker/src/connection.rs:257-271 | a client holding some blocks of the broker loads an object alike if and only if everything it needs is among them |
| Broker.StreamRebuilds | lofire-broker/src/connection.rs:257-271 | from the deduplicated stream the client rebuilds the full block list, repeats included, and the deps, if and only if all blocks the object needs are its own; else it reports missing blocks |
| Broker.RebuiltErrors | lofire-broker/src/connection.rs:257-271 | the client reports missing blocks as such and any other failure to load as a parse error |
| Broker.SyncedCommitsLoad | lofire-broker/src/server.rs:776-813 | a client storing what it was sent loads a commit sent, as the broker does, if and only if all it needs are blocks of commits sent; always, if its deps are a plain list |
| Broker.DepListNotStreamed | lofire-broker/src/connection.rs:257-271 | a stored one-block object with more than eight deps loads at the broker but not from the stream the client is sent |
| Broker.DepListNotSynced | lofire-broker/src/server.rs:776-813 | nor does such a commit, if it is the only one `sync_branch` sends |
| Broker.ClientRoundTrip | lofire-broker/src/connection.rs:257-312 | an object of at most eight deps put and got over the broker has the same id, blocks, deps and, with its key, content |
| Protocol.CodesRoundTrip | lofire-net/src/errors.rs:12-41 | errors and codes correspond one to one, and 0 is no error |
| Streams.FramesOfStream | lofire-broker/src/server.rs:265-326 | direct reply and pushed frames together are the blocks, then the end, for empty streams too |
| Streams.FrameCodes | lofire-broker/src/server.rs:233-326 | the frames on the wire with their codes: 7 with each block, 13 at the end, that of an error or 0 alone |
| Streams.AfterPrefix | lofire-broker/src/connection.rs:112-139 | what an actor has passed on, reported and replied after each number of its frames; it stops with the last one |
| Streams.FirstReportStays | lofire-broker/src/connection.rs:89-94 | only the first outcome of a stream, an error or none, is reported |
| Streams.NeverClosed | lofire-broker/src/connection.rs:905-953 | the reader never meets a frame whose actor is unknown or dead |
| Streams.EventKeeps | lofire-node/src/main.rs:18-102 | every move of writers, reader and actors keeps each request's frames whole and in order |
| Streams.ReachableInv | lofire-node/src/main.rs:18-102 | so does every run, any number of requests overlapping |
| Streams.StreamsAreDelivered | lofire-broker/src/connection.rs:866-960 | in every reachable state each request's blocks are a prefix of the broker's stream, all of it when its actor has stopped, which is exactly when no frame of it is under way |
| Streams.MovesOrDone | lofire-node/src/main.rs:18-102 | the system never gets stuck with a request unanswered |
| Streams.MovesEnd | lofire-node/src/main.rs:18-102 | without new requests it cannot move forever |
| Streams.QuietMeansDelivered | lofire-broker/src/connection.rs:866-960 | when nothing moves any more, every stream has arrived whole and every plain request is answered |
| Delivery.AnswerGet | lofire-broker/src/server.rs:737-774 | what `get_block` with children answers is a proper stream answer, and the store's blocks stay |
| Delivery.ObjectDelivered | lofire-broker/src/connection.rs:257-271 | in every reachable state, once its actor has stopped a client has the object as the broker loads it if and only if the broker can load it and it needs only its own blocks; else it has the error |
| Delivery.ErrorDelivered | lofire-broker/src/connection.rs:112-139 | the error the broker answers with is the one the client returns |
| Delivery.QuietObjectDelivered | lofire-broker/src/connection.rs:257-271 | and when nothing moves any more, every request for an object has that outcome |
| Delivery.PutIsReceived | lofire-broker/src/connection.rs:257-312 | an object of at most eight deps put at the broker is received over the streams with its id, blocks, deps and, with its key, content |
| Delivery.CommitsDelivered | lofire-broker/src/server.rs:776-813 | commits sent by a sync load at the client, after delivery, exactly if all they need was sent |

## Left out

- BLAKE3, ChaCha20, Ed25519 and the Bloom filter: parameters, an arbitrary predicate for the filter. That hashes do not collide is built into digests as terms (`Bare.SerializationTellsApart` says what it rests on).
- The serialization of commits, bodies, files and dep lists: a pair of functions that round-trip.
- The decoder: that it does not look at bytes after a value is taken over from the BARE library, which is not part of this model; its ten-byte cap on a uint is left out.
- Machine integers: the header addition is required not to overflow; other sizes and counts are unbounded.
- `missing` and `their_head_found` of `sync_req`: neither is reported. `Branches` carries the first along and states nothing of it; the second is absent.
- `verify_sig` and `verify_perm` of a commit: signature and permission checks over one commit.
- LMDB itself: transactions, locks, encryption at rest, the append-only flag of LRU insertions. Each operation is one step; `get` reading its meta data before it takes the writer, and so concurrent calls, are not modelled. The order of entries of equal time is left open.
- RepoStore.LmdbRepoStore.Put: storing strips cache and key, as serialization does; the failure of the LMDB write is not modelled.
- Broker.SyncBranch: the walk over commits reads the main table, so its own effect on times of last use is not modelled; that of streaming is.
- Streams: answers are arbitrary, but no operation fails with one of the two stream codes. A client dropping its receiver, Close frames, connection errors and reconnects are not modelled. Blocks are in the answer from the start, though the code may still be producing them.
- Overlay and topic checks, repo-store lookup and the Core mode of the broker: paths and locks.
- The authentication handshake, the websocket, the actor runtime.
- Account, overlay, topic, peer, configuration and repository records: thin wrappers over tables.
- `copy_object`, `del_user`, the external protocol and the peer protocol: not implemented in the original.
