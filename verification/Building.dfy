// What new objects and copies are made of, block by block, in the numbers of
// the block format: an empty block takes 12 bytes, the length of a data chunk up
// to 4 more, a digest or a key 33, and an internal node leaves 12 + 6 + 264 of its bytes
// for what is not a child.

module Building {
  import opened Types
  import opened Objects
  import opened RoundTrip
  import opened Storing
  import opened TreeShape
  import opened Copying
  import Bare
  import Sizes

  // ----- Convergent encryption -----

  /**
   * `make_block` made this block: its key is the keyed hash of what the key opens
   * it to, it expires when it was told to, and its id is its hash.
   */
  ghost predicate Made(s: Suite, convKey: Key, expiry: Option<Timestamp>, b: Block) {
    && b.expiry == expiry && b.Coherent()
    && b.key.Some? && b.key.value == s.keyedHash(convKey, s.Crypt(b.key.value, b.content))
  }

  ghost predicate AllMade(s: Suite, convKey: Key, expiry: Option<Timestamp>, bs: seq<Block>) {
    forall i :: 0 <= i < |bs| ==> Made(s, convKey, expiry, bs[i])
  }

  lemma MakeBlockMakes(s: Suite, convKey: Key, plain: seq<byte>, children: seq<Digest>, deps: ObjectDeps, expiry: Option<Timestamp>)
    ensures Made(s, convKey, expiry, MakeBlock(s, convKey, plain, children, deps, expiry))
  {
    s.CryptInvolutive(s.keyedHash(convKey, plain), plain);
  }

  lemma {:induction false} LevelMade(p: TreeParams, nodes: seq<Block>, first: bool)
    requires p.arity >= 2 && Keyed(nodes)
    ensures AllMade(p.suite, p.convKey, p.expiry, ParentLevel(p, nodes, first))
    decreases |nodes|
  {
    hide Made, Bare.Serialize, MakeBlock;
    if nodes != [] {
      var n := RunOf(nodes, p.arity);
      var deps := if first && n == |nodes| then p.rootDeps else NO_DEPS;
      ParentLevelStep(p, nodes, first);
      hide ParentLevel;
      MakeBlockMakes(p.suite, p.convKey, Bare.Serialize(InternalNode(Keys(nodes[..n]))), Ids(nodes[..n]), deps, p.expiry);
      LevelMade(p, nodes[n..], false);
    }
  }

  lemma {:induction false} TreeMade(p: TreeParams, nodes: seq<Block>)
    requires p.arity >= 2 && Keyed(nodes) && nodes != []
    ensures AllMade(p.suite, p.convKey, p.expiry, Tree(p, nodes))
    decreases |nodes|
  {
    hide ParentLevel, Made;
    var level := ParentLevel(p, nodes, true);
    TreeTop(p, nodes);
    LevelMade(p, nodes, true);
    if 1 < |level| {
      ParentLevelShrinks(p, nodes);
      TreeMade(p, level);
    }
  }

  lemma LeavesMade(s: Suite, convKey: Key, expiry: Option<Timestamp>, chunks: seq<seq<byte>>)
    ensures AllMade(s, convKey, expiry, Leaves(s, convKey, expiry, chunks))
  {
    hide Made, MakeBlock, Bare.Serialize, Leaves;
    forall i | 0 <= i < |chunks|
      ensures Made(s, convKey, expiry, Leaves(s, convKey, expiry, chunks)[i])
    {
      LeafOfChunk(s, convKey, expiry, chunks, i);
      MakeBlockMakes(s, convKey, Bare.Serialize(DataChunk(chunks[i])), [], NO_DEPS, expiry);
    }
  }

  // ----- Counting -----

  /** How many blocks a tree over `n` nodes has: ceil(n/a) + ceil(n/a^2) + ... + 1. */
  function TreeCount(n: nat, a: nat): nat
    requires a >= 2
    decreases n
  {
    var level := Sizes.CeilDiv(n, a);
    if level <= 1 then level
    else
      Counted(n, a);
      level + TreeCount(level, a)
  }

  lemma Counted(n: nat, a: nat)
    requires a >= 2 && Sizes.CeilDiv(n, a) > 1
    ensures Sizes.CeilDiv(n, a) < n
  {
    Sizes.CeilDivStep(n, a);
    Sizes.CeilDivSmaller(n, a);
  }

  lemma {:induction false} TreeCounts(p: TreeParams, nodes: seq<Block>)
    requires p.arity >= 2 && Keyed(nodes)
    ensures |Tree(p, nodes)| == TreeCount(|nodes|, p.arity)
    decreases |nodes|
  {
    hide ParentLevel;
    ParentLevelSize(p, nodes, true);
    var level := ParentLevel(p, nodes, true);
    if 1 < |level| {
      ParentLevelShrinks(p, nodes);
      TreeCounts(p, level);
    }
  }

  lemma {:induction false} ChunkCount(bytes: seq<byte>, size: nat)
    requires size > 0
    ensures |Chunks(bytes, size)| == Sizes.CeilDiv(|bytes|, size)
    decreases |bytes|
  {
    Sizes.CeilDivStep(|bytes|, size);
    if size < |bytes| {
      ChunkCount(bytes[size..], size);
    }
  }

  // ----- New objects -----

  /** Decrypted with its key, the block is a serialized data chunk. */
  ghost predicate Holds(s: Suite, b: Block, chunk: seq<byte>) {
    b.key.Some? && s.Crypt(b.key.value, b.content) == Bare.Serialize(DataChunk(chunk))
  }

  /** The blocks are leaves: without children or deps, each holding its chunk. */
  ghost predicate LeavesOver(s: Suite, leaves: seq<Block>, chunks: seq<seq<byte>>) {
    && |leaves| == |chunks|
    && forall i :: 0 <= i < |leaves| ==>
         leaves[i].children == [] && leaves[i].deps == NO_DEPS && Holds(s, leaves[i], chunks[i])
  }

  /** The blocks over `nodes` are a tree, level by level. */
  ghost predicate TreeOver(p: TreeParams, nodes: seq<Block>, tree: seq<Block>, levels: seq<seq<Block>>) {
    && p.arity >= 2 && levels != [] && tree == Concat(levels)
    && (forall j: nat :: j < |levels| ==> LevelOver(p, nodes, levels, j))
    && |tree| == TreeCount(|nodes|, p.arity)
  }

  lemma TreeIsOver(p: TreeParams, nodes: seq<Block>)
    requires p.arity >= 2 && Keyed(nodes) && nodes != []
    ensures TreeOver(p, nodes, Tree(p, nodes), TreeLevels(p, nodes))
  {
    Levels(p, nodes);
    TreeCounts(p, nodes);
  }

  lemma LeavesAreOver(s: Suite, convKey: Key, expiry: Option<Timestamp>, chunks: seq<seq<byte>>)
    ensures LeavesOver(s, Leaves(s, convKey, expiry, chunks), chunks)
  {
    hide MakeBlock, Leaves, Bare.Serialize, Holds;
    forall i | 0 <= i < |chunks|
      ensures var leaf := Leaves(s, convKey, expiry, chunks)[i];
              leaf.children == [] && leaf.deps == NO_DEPS && Holds(s, leaf, chunks[i])
    {
      LeafOfChunk(s, convKey, expiry, chunks, i);
      MadeHolds(s, convKey, chunks[i], [], NO_DEPS, expiry);
      MadeFields(s, convKey, Bare.Serialize(DataChunk(chunks[i])), [], NO_DEPS, expiry);
    }
  }

  lemma MadeHolds(s: Suite, convKey: Key, chunk: seq<byte>, children: seq<Digest>, deps: ObjectDeps, expiry: Option<Timestamp>)
    ensures Holds(s, MakeBlock(s, convKey, Bare.Serialize(DataChunk(chunk)), children, deps, expiry), chunk)
  {
    var plain := Bare.Serialize(DataChunk(chunk));
    s.CryptInvolutive(s.keyedHash(convKey, plain), plain);
  }

  lemma MadeFields(s: Suite, convKey: Key, plain: seq<byte>, children: seq<Digest>, deps: ObjectDeps, expiry: Option<Timestamp>)
    ensures var b := MakeBlock(s, convKey, plain, children, deps, expiry); b.children == children && b.deps == deps
  {
  }

  /** The deps of the root: up to eight ids, or a reference to an object made of the list, without deps or expiry. */
  ghost predicate RootDeps(s: Suite, deps: seq<Digest>, validSize: nat, pubkey: Key, secret: Key, root: ObjectDeps)
    requires s.Sound() && validSize + Sizes.HEADER < Sizes.USIZE_LIMIT
  {
    if |deps| <= 8 then root == ObjectIdList(deps)
    else
      var list := New(s, DepListObject(deps), [], None, validSize, pubkey, secret);
      list.Key().Some? && root == DepListRef(ObjectRef(list.Id(), list.Key().value))
  }

  lemma MadeRootDeps(s: Suite, deps: seq<Digest>, validSize: nat, pubkey: Key, secret: Key)
    requires s.Sound() && Sizes.MIN_SIZE <= validSize <= Sizes.MAX_VALUE_SIZE
    ensures RootDeps(s, deps, validSize, pubkey, secret, MakeDeps(s, deps, validSize, s.convergenceKey(pubkey, secret)))
  {
    hide NewBlocks;
    Sizes.ValidValueSizeFits(validSize);
  }

  /**
   * The blocks of a new object. Every one is made under the key derived from
   * public key and secret, with the expiry given; the root carries the deps.
   * The content is in the root if it fits there with its deps; else it is cut
   * into chunks of the valid size less 16 bytes, one leaf for each, and the
   * leaves are under a tree whose nodes have as many children as fit.
   */
  lemma NewShape(s: Suite, content: ObjectContent, deps: seq<Digest>, expiry: Option<Timestamp>,
                 blockSize: nat, pubkey: Key, secret: Key) returns (p: TreeParams, levels: seq<seq<Block>>)
    requires s.Sound() && blockSize + Sizes.HEADER < Sizes.USIZE_LIMIT
    ensures var o, size, bytes := New(s, content, deps, expiry, blockSize, pubkey, secret), Sizes.ValidValueSize(blockSize), s.encode(content);
            && 4072 <= size <= Sizes.MAX_VALUE_SIZE
            && AllMade(s, s.convergenceKey(pubkey, secret), expiry, o.blocks)
            && RootDeps(s, deps, size, pubkey, secret, o.Root().deps)
            && if 12 + 4 + 33 * |deps| + |bytes| <= size then
                 |o.blocks| == 1 && o.Root().children == [] && Holds(s, o.Root(), bytes)
               else
                 var chunks := Chunks(bytes, size - 16);
                 var n := |chunks|;
                 && n == Sizes.CeilDiv(|bytes|, size - 16) && n <= |o.blocks|
                 && LeavesOver(s, o.blocks[..n], chunks)
                 && p.arity == (size - 282) / 66 && p.rootDeps == o.Root().deps
                 && TreeOver(p, o.blocks[..n], o.blocks[n..], levels)
  {
    hide Made, Leaves, Tree, MakeBlock, Bare.Serialize, Chunks, MakeDeps, LeavesOver, TreeOver, Holds, RootDeps, Sizes.ValidValueSize;
    Sizes.ValidValueSizeFits(blockSize);
    Sizes.ArityRange(blockSize);
    var size := Sizes.ValidValueSize(blockSize);
    var convKey := s.convergenceKey(pubkey, secret);
    var bytes, rootDeps := s.encode(content), MakeDeps(s, deps, size, convKey);
    p, levels := TreeParams(s, convKey, rootDeps, expiry, Sizes.Arity(size)), [];
    MadeRootDeps(s, deps, size, pubkey, secret);
    NewRootDeps(s, bytes, |deps|, rootDeps, expiry, size, convKey);
    var o := New(s, content, deps, expiry, blockSize, pubkey, secret);
    if SingleBlock(bytes, |deps|, size) {
      var plain := Bare.Serialize(DataChunk(bytes));
      MakeBlockMakes(s, convKey, plain, [], rootDeps, expiry);
      MadeFields(s, convKey, plain, [], rootDeps, expiry);
      MadeHolds(s, convKey, bytes, [], rootDeps, expiry);
    } else {
      var chunks := Chunks(bytes, ChunkSize(size));
      var leaves := Leaves(s, convKey, expiry, chunks);
      ChunkCount(bytes, ChunkSize(size));
      LeavesMade(s, convKey, expiry, chunks);
      LeavesAreOver(s, convKey, expiry, chunks);
      assert leaves != [] by { SomeChunks(bytes, ChunkSize(size)); }
      levels := TreeLevels(p, leaves);
      TreeMade(p, leaves);
      TreeIsOver(p, leaves);
      assert o.blocks == leaves + Tree(p, leaves);
      assert o.blocks[..|leaves|] == leaves && o.blocks[|leaves|..] == Tree(p, leaves);
      MadeConcat(s, convKey, expiry, leaves, Tree(p, leaves));
    }
  }

  lemma SomeChunks(bytes: seq<byte>, size: nat)
    requires size > 0 && bytes != []
    ensures Chunks(bytes, size) != []
  {
  }

  lemma MadeConcat(s: Suite, convKey: Key, expiry: Option<Timestamp>, a: seq<Block>, b: seq<Block>)
    requires AllMade(s, convKey, expiry, a) && AllMade(s, convKey, expiry, b)
    ensures AllMade(s, convKey, expiry, a + b)
  {
    hide Made;
  }

  /**
   * Convergence: leaves made under the same keys with the same expiry are one
   * block if they hold the same chunk, in one object or in two, and only then.
   */
  lemma EqualChunksShare(s: Suite, convKey: Key, expiry: Option<Timestamp>, a: Block, x: seq<byte>, b: Block, y: seq<byte>)
    requires Made(s, convKey, expiry, a) && Made(s, convKey, expiry, b) && Holds(s, a, x) && Holds(s, b, y)
    requires a.children == b.children == [] && a.deps == b.deps
    ensures a.Id() == b.Id() && a.key == b.key <==> x == y
  {
    s.CryptInvolutive(a.key.value, a.content);
    s.CryptInvolutive(b.key.value, b.content);
    Bare.ContentRoundTrip(DataChunk(x));
    Bare.ContentRoundTrip(DataChunk(y));
  }

  // ----- Copies -----

  /** The same block with another expiry, and so another id. */
  ghost predicate Reexpired(a: Block, b: Block, expiry: Option<Timestamp>) {
    && b.children == a.children && b.deps == a.deps && b.content == a.content && b.key == a.key
    && b.expiry == expiry && b.Id() == Merkle(a.children, a.deps, expiry, a.content)
  }

  /**
   * The blocks of a copy: the leaves of the original in order, with the new
   * expiry and else the same, not encrypted anew; and over them a tree made under
   * the key derived from the public key and secret of the copy, whose nodes have
   * as many children as fit the valid size of the first leaf's content.
   */
  lemma CopyShape(s: Suite, o: Object, expiry: Option<Timestamp>, pubkey: Key, secret: Key)
    returns (p: TreeParams, levels: seq<seq<Block>>)
    requires o.blocks != [] && InMemory(o.blocks) && Copy(s, o, expiry, pubkey, secret).Copied?
    ensures o.Key().Some? && Walk(s, o, o.Key().value).Ok?
    ensures var leaves, n := Walk(s, o, o.Key().value).value.leaves, Copy(s, o, expiry, pubkey, secret).copy;
            var k := |leaves|;
            && 0 < k < |n.blocks| && |leaves[0].content| + Sizes.HEADER < Sizes.USIZE_LIMIT
            && (forall i :: 0 <= i < k ==> Reexpired(leaves[i], n.blocks[i], expiry))
            && AllMade(s, s.convergenceKey(pubkey, secret), expiry, n.blocks[k..])
            && p.arity == (Sizes.ValidValueSize(|leaves[0].content|) - 282) / 66 && p.rootDeps == o.Root().deps
            && TreeOver(p, n.blocks[..k], n.blocks[k..], levels)
  {
    hide Collect, Tree, Made, TreeOver, Expire, Sizes.ValidValueSize;
    var key := o.Key().value;
    var leaves := Walk(s, o, key).value.leaves;
    LeavesInMemory(s, o, leaves);
    assert leaves[0] in leaves;
    Sizes.ArityRange(|leaves[0].content|);
    var arity := Sizes.Arity(Sizes.ValidValueSize(|leaves[0].content|));
    var copies := Expire(leaves, expiry);
    p := TreeParams(s, s.convergenceKey(pubkey, secret), o.Root().deps, expiry, arity);
    levels := TreeLevels(p, copies);
    TreeIsOver(p, copies);
    TreeMade(p, copies);
    var n := Copy(s, o, expiry, pubkey, secret).copy;
    assert n.blocks == copies + Tree(p, copies);
    assert n.blocks[..|leaves|] == copies && n.blocks[|leaves|..] == Tree(p, copies);
    ExpireKeeps(leaves, expiry);
  }

  lemma ExpireKeeps(leaves: seq<Block>, expiry: Option<Timestamp>)
    ensures |Expire(leaves, expiry)| == |leaves|
    ensures forall i :: 0 <= i < |leaves| ==> Reexpired(leaves[i], Expire(leaves, expiry)[i], expiry)
  {
  }

  // ----- The copy of a new object -----

  /** A size in the last page up to a valid one has that one as its valid size. */
  lemma NearValidSize(blockSize: nat, size: nat)
    requires blockSize + Sizes.HEADER < Sizes.USIZE_LIMIT
    requires Sizes.ValidValueSize(blockSize) - Sizes.PAGE_SIZE < size <= Sizes.ValidValueSize(blockSize)
    ensures size + Sizes.HEADER < Sizes.USIZE_LIMIT && Sizes.ValidValueSize(size) == Sizes.ValidValueSize(blockSize)
  {
    hide Sizes.ValidValueSize;
    Sizes.ValidValueSizeFits(blockSize);
    Sizes.ValidValueSizeIsInteger(blockSize);
    Sizes.ValidValueSizeIsInteger(size);
    hide Sizes.RoundF32;
  }

  lemma HeldSize(s: Suite, b: Block, chunk: seq<byte>)
    requires Holds(s, b, chunk)
    ensures |b.content| == 1 + Bare.VarUintSize(|chunk|) + |chunk|
  {
    Bare.ContentSize(DataChunk(chunk));
  }

  /** The leaves of a new object as the walk finds them are its first blocks. */
  lemma NewLeavesFirst(s: Suite, content: ObjectContent, deps: seq<Digest>, expiry: Option<Timestamp>,
                       blockSize: nat, pubkey: Key, secret: Key)
    requires s.Sound() && blockSize + Sizes.HEADER < Sizes.USIZE_LIMIT
    ensures var o, size, bytes := New(s, content, deps, expiry, blockSize, pubkey, secret), Sizes.ValidValueSize(blockSize), s.encode(content);
            && size >= 4072 && o.Key().Some? && Walk(s, o, o.Key().value).Ok?
            && Walk(s, o, o.Key().value).value.leaves
               == if 12 + 4 + 33 * |deps| + |bytes| <= size then o.blocks
                  else if |Chunks(bytes, size - 16)| <= |o.blocks| then o.blocks[..|Chunks(bytes, size - 16)|] else []
  {
    hide Walk, Tree, MakeDeps, Sizes.ValidValueSize, MakeBlock, Leaves, Chunks, Bare.Serialize;
    Sizes.ValidValueSizeFits(blockSize);
    var size, convKey := Sizes.ValidValueSize(blockSize), s.convergenceKey(pubkey, secret);
    var o := New(s, content, deps, expiry, blockSize, pubkey, secret);
    WalkNew(s, s.encode(content), |deps|, MakeDeps(s, deps, size, convKey), expiry, size, convKey, o);
    if !SingleBlock(s.encode(content), |deps|, size) {
      var leaves := Leaves(s, convKey, expiry, Chunks(s.encode(content), ChunkSize(size)));
      assert leaves <= o.blocks;
    }
  }

  /**
   * The copy of a new object has two blocks if the object has one. Else it has
   * as many as the object, and, over two leaves or more, nodes of the same arity:
   * the first leaf is full, so its content takes the valid size again.
   */
  lemma CopyOfNewShape(s: Suite, content: ObjectContent, deps: seq<Digest>, expiry: Option<Timestamp>, blockSize: nat,
                       pubkey: Key, secret: Key, newExpiry: Option<Timestamp>, newPubkey: Key, newSecret: Key)
    returns (p: TreeParams, levels: seq<seq<Block>>)
    requires s.Sound() && blockSize + Sizes.HEADER < Sizes.USIZE_LIMIT
    ensures var o, size, bytes := New(s, content, deps, expiry, blockSize, pubkey, secret), Sizes.ValidValueSize(blockSize), s.encode(content);
            && InMemory(o.blocks) && Copy(s, o, newExpiry, newPubkey, newSecret).Copied? && size >= 4072
            && var n := Copy(s, o, newExpiry, newPubkey, newSecret).copy;
               if 12 + 4 + 33 * |deps| + |bytes| <= size then |o.blocks| == 1 && |n.blocks| == 2
               else
                 var k := Sizes.CeilDiv(|bytes|, size - 16);
                 && |n.blocks| == |o.blocks| && k < |n.blocks|
                 && TreeOver(p, n.blocks[..k], n.blocks[k..], levels)
                 && (k >= 2 ==> p.arity == (size - 282) / 66)
  {
    hide New, Walk, Copy, Made, AllMade, TreeOver, Chunks, Reexpired, RootDeps, Holds, Sizes.ValidValueSize, Sizes.CeilDiv,
         AllFit, AllSerializeWithin, InMemory, LeavesOver, TreeCount, Content, AllExpire, AllCoherent, Expire;
    CopyFits(s, content, deps, expiry, blockSize, pubkey, secret, newExpiry, newPubkey, newSecret);
    NewLeavesFirst(s, content, deps, expiry, blockSize, pubkey, secret);
    var q, lower := NewShape(s, content, deps, expiry, blockSize, pubkey, secret);
    var o, size, bytes := New(s, content, deps, expiry, blockSize, pubkey, secret), Sizes.ValidValueSize(blockSize), s.encode(content);
    p, levels := CopyShape(s, o, newExpiry, newPubkey, newSecret);
    CopyKeeps(s, o, newExpiry, newPubkey, newSecret);
    if 12 + 4 + 33 * |deps| + |bytes| > size {
      var chunks := Chunks(bytes, size - 16);
      var n := Copy(s, o, newExpiry, newPubkey, newSecret).copy;
      ChunkBounds(bytes, size - 16);
      TreeSize(q, o.blocks[..|chunks|], o.blocks[|chunks|..], lower);
      TreeSize(p, n.blocks[..|chunks|], n.blocks[|chunks|..], levels);
      if |chunks| >= 2 {
        FirstLeafFull(s, o.blocks[..|chunks|], chunks, blockSize);
      } else {
        OneCount(p.arity);
        OneCount(q.arity);
      }
    }
  }

  lemma TreeSize(p: TreeParams, nodes: seq<Block>, tree: seq<Block>, levels: seq<seq<Block>>)
    requires TreeOver(p, nodes, tree, levels)
    ensures p.arity >= 2 && |tree| == TreeCount(|nodes|, p.arity)
  {
  }

  lemma OneCount(a: nat)
    requires a >= 2
    ensures TreeCount(1, a) == 1
  {
    Sizes.CeilDivStep(1, a);
  }

  /** A full leaf takes the valid size it was cut for. */
  lemma FirstLeafFull(s: Suite, leaves: seq<Block>, chunks: seq<seq<byte>>, blockSize: nat)
    requires blockSize + Sizes.HEADER < Sizes.USIZE_LIMIT && LeavesOver(s, leaves, chunks) && |chunks| >= 2
    requires |chunks[0]| == Sizes.ValidValueSize(blockSize) - 16
    ensures |leaves[0].content| + Sizes.HEADER < Sizes.USIZE_LIMIT
    ensures Sizes.ValidValueSize(|leaves[0].content|) == Sizes.ValidValueSize(blockSize)
  {
    hide Holds, Sizes.ValidValueSize;
    Sizes.ValidValueSizeFits(blockSize);
    HeldSize(s, leaves[0], chunks[0]);
    Bare.VarUintSmall(|chunks[0]|);
    NearValidSize(blockSize, |leaves[0].content|);
  }
}
