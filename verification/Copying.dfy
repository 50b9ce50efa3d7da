// Copies: the same content and deps, a new expiry on every block.

module Copying {
  import opened Types
  import opened Objects
  import opened RoundTrip
  import opened Storing
  import Bare
  import Sizes

  /** What the leaves hold, each opened with its key. */
  function ChunksOf(s: Suite, leaves: seq<Block>): (r: seq<seq<byte>>)
    requires AllOpen(s, leaves)
    ensures |r| == |leaves|
  {
    if leaves == [] then []
    else
      assert Opens(s, leaves[0]);
      [ChunkOf(s, leaves[0])] + ChunksOf(s, leaves[1..])
  }

  predicate AllOpen(s: Suite, leaves: seq<Block>) {
    forall i :: 0 <= i < |leaves| ==> Opens(s, leaves[i])
  }

  lemma {:induction false} ChunksOfLeaves(s: Suite, leaves: seq<Block>)
    requires AllOpen(s, leaves)
    ensures LeafList(s, leaves, ChunksOf(s, leaves))
  {
    if leaves != [] {
      assert Opens(s, leaves[0]);
      ChunksOfLeaves(s, leaves[1..]);
      var chunks := ChunksOf(s, leaves);
      forall i | 0 <= i < |leaves|
        ensures OpensTo(s, leaves[i], chunks[i])
      {
        if i > 0 {
          assert leaves[i] == leaves[1..][i - 1] && chunks[i] == ChunksOf(s, leaves[1..])[i - 1];
          assert OpensTo(s, leaves[1..][i - 1], ChunksOf(s, leaves[1..])[i - 1]);
        }
      }
    }
  }

  lemma {:induction false} ChunksOfConcat(s: Suite, a: seq<Block>, b: seq<Block>)
    requires AllOpen(s, a) && AllOpen(s, b)
    ensures AllOpen(s, a + b)
    ensures Flatten(ChunksOf(s, a + b)) == Flatten(ChunksOf(s, a)) + Flatten(ChunksOf(s, b))
  {
    hide Opens;
    if a == [] {
      assert a + b == b;
      assert [] + Flatten(ChunksOf(s, b)) == Flatten(ChunksOf(s, b));
    } else {
      assert (a + b)[1..] == a[1..] + b && (a + b)[0] == a[0];
      assert Opens(s, a[0]);
      ChunksOfConcat(s, a[1..], b);
      var first := ChunksOf(s, a)[0];
      assert ChunksOf(s, a)[1..] == ChunksOf(s, a[1..]);
      assert ChunksOf(s, a + b) == [first] + ChunksOf(s, a[1..] + b);
      assert ChunksOf(s, a + b)[1..] == ChunksOf(s, a[1..] + b);
      assert first + (Flatten(ChunksOf(s, a[1..])) + Flatten(ChunksOf(s, b)))
          == first + Flatten(ChunksOf(s, a[1..])) + Flatten(ChunksOf(s, b));
    }
  }

  ghost predicate Yields(s: Suite, leaves: seq<Block>, content: seq<byte>) {
    AllOpen(s, leaves) && content == Flatten(ChunksOf(s, leaves))
  }

  lemma OpenYields(s: Suite, b: Block, id: Digest, key: Key)
    ensures var r := OpenBlock(s, b, id, key); r.Ok? ==> Yields(s, r.value.leaves, r.value.content)
  {
    var r := OpenBlock(s, b, id, key);
    if r.Ok? && r.value.leaves != [] {
      var leaf := b.(key := Some(key));
      assert Opens(s, leaf);
      assert [leaf][1..] == [];
      var chunk := r.value.content;
      assert ChunksOf(s, [leaf]) == [chunk];
      assert [chunk][1..] == [] && chunk + [] == chunk;
    }
  }

  lemma {:induction false} LevelYields(s: Suite, blocks: seq<Block>, parents: Refs, index: nat)
    requires index + |parents| <= |blocks|
    ensures var r := OpenLevel(s, blocks, parents, index); r.Ok? ==> Yields(s, r.value.leaves, r.value.content)
    decreases |parents|
  {
    hide OpenBlock, Opens;
    if parents != [] {
      OpenYields(s, blocks[index], parents[0].0, parents[0].1);
      LevelYields(s, blocks, parents[1..], index + 1);
      var head, tail := OpenBlock(s, blocks[index], parents[0].0, parents[0].1), OpenLevel(s, blocks, parents[1..], index + 1);
      if head.Ok? && tail.Ok? {
        ChunksOfConcat(s, head.value.leaves, tail.value.leaves);
      }
    }
  }

  /** Collected leaves all open, and the collected content is what they hold. */
  lemma {:induction false} CollectYields(s: Suite, blocks: seq<Block>, parents: Refs, index: nat)
    requires index + |parents| <= |blocks|
    ensures var r := Collect(s, blocks, parents, index); r.Ok? ==> Yields(s, r.value.leaves, r.value.content)
    decreases index
  {
    hide OpenLevel, Opens;
    LevelYields(s, blocks, parents, index);
    match OpenLevel(s, blocks, parents, index)
    case Err(_) =>
    case Ok(level) =>
      if level.below != [] && |level.below| <= index {
        CollectYields(s, blocks, level.below, index - |level.below|);
        var rest := Collect(s, blocks, level.below, index - |level.below|);
        if rest.Ok? {
          ChunksOfConcat(s, level.leaves, rest.value.leaves);
        }
      }
  }

  ghost predicate AllExpire(bs: seq<Block>, expiry: Option<Timestamp>) {
    forall i :: 0 <= i < |bs| ==> bs[i].expiry == expiry
  }

  lemma {:induction false} LevelExpiry(p: TreeParams, nodes: seq<Block>, first: bool)
    requires p.arity >= 2 && Keyed(nodes)
    ensures AllExpire(ParentLevel(p, nodes, first), p.expiry)
    decreases |nodes|
  {
    hide Parent;
    if nodes != [] {
      var n := RunOf(nodes, p.arity);
      var deps := if first && n == |nodes| then p.rootDeps else NO_DEPS;
      ParentLevelStep(p, nodes, first);
      hide ParentLevel;
      ParentFields(p, nodes[..n], deps);
      LevelExpiry(p, nodes[n..], false);
    }
  }

  lemma {:induction false} TreeExpiry(p: TreeParams, nodes: seq<Block>)
    requires p.arity >= 2 && Keyed(nodes) && nodes != []
    ensures AllExpire(Tree(p, nodes), p.expiry)
    decreases |nodes|
  {
    hide ParentLevel;
    var level := ParentLevel(p, nodes, true);
    TreeTop(p, nodes);
    LevelExpiry(p, nodes, true);
    if 1 < |level| {
      ParentLevelShrinks(p, nodes);
      TreeExpiry(p, level);
    }
  }

  /** Changing the expiry changes ids, not keys or content. */
  lemma ExpiredLeaves(s: Suite, leaves: seq<Block>, chunks: seq<seq<byte>>, expiry: Option<Timestamp>)
    requires LeafList(s, leaves, chunks)
    ensures var copies := Expire(leaves, expiry);
            LeafList(s, copies, chunks) && Keyed(copies) && AllExpire(copies, expiry) && AllCoherent(copies)
  {
    var copies := Expire(leaves, expiry);
    forall i | 0 <= i < |copies|
      ensures OpensTo(s, copies[i], chunks[i])
    {
      assert OpensTo(s, leaves[i], chunks[i]);
    }
  }

  /** The blocks of a copy: the content of the leaves, the deps of the root, the new expiry everywhere. */
  lemma CopyOfLeaves(s: Suite, leaves: seq<Block>, content: seq<byte>, rootDeps: ObjectDeps,
                     expiry: Option<Timestamp>, convKey: Key, o: Object)
    requires leaves != [] && Keyed(leaves) && Yields(s, leaves, content)
    requires |leaves[0].content| + Sizes.HEADER < Sizes.USIZE_LIMIT
    requires o.blocks == CopyBlocks(s, leaves, rootDeps, expiry, convKey)
    ensures o.Key().Some? && Walk(s, o, o.Key().value) == Ok(Yield(Expire(leaves, expiry), content))
    ensures AllExpire(o.blocks, expiry) && o.Root().deps == rootDeps && AllCoherent(o.blocks)
    ensures |o.blocks| > |leaves| && o.blocks[..|leaves|] == Expire(leaves, expiry)
    ensures |leaves| == 1 ==> |o.blocks| == 2
  {
    hide Walk, Tree, Opens, Sizes.ValidValueSize, LeafList, ChunksOf, Flatten;
    Sizes.ArityRange(|leaves[0].content|);
    var arity := Sizes.Arity(Sizes.ValidValueSize(|leaves[0].content|));
    var p := TreeParams(s, convKey, rootDeps, expiry, arity);
    var copies := Expire(leaves, expiry);
    ChunksOfLeaves(s, leaves);
    ExpiredLeaves(s, leaves, ChunksOf(s, leaves), expiry);
    WalkTree(p, copies, ChunksOf(s, leaves), o);
    TreeExpiry(p, copies);
    TreeRootDeps(p, copies);
    TreeCoherent(p, copies);
    if |leaves| == 1 {
      TreeOverOne(p, copies);
    }
  }

  lemma TreeOverOne(p: TreeParams, nodes: seq<Block>)
    requires p.arity >= 2 && Keyed(nodes) && |nodes| == 1
    ensures |Tree(p, nodes)| == 1
  {
    hide ParentLevel;
    ParentLevelSize(p, nodes, true);
    Sizes.CeilDivStep(1, p.arity);
  }

  /**
   * `copy` panics exactly when the root key is unknown or the tree has no leaf,
   * and fails exactly when the walk does. Otherwise the copy has the content
   * and deps of the original and the new expiry on every block. Its leaves are
   * those of the original, in order; over them it always has a tree: an object
   * of one block gains a second.
   */
  lemma CopyKeeps(s: Suite, o: Object, expiry: Option<Timestamp>, pubkey: Key, secret: Key)
    requires o.blocks != [] && InMemory(o.blocks)
    ensures var c := Copy(s, o, expiry, pubkey, secret);
            && (c.CopyPanic? <==> o.Key().None? || (var w := Walk(s, o, o.Key().value); w.Ok? && w.value.leaves == []))
            && (c.CopyParseError? <==> o.Key().Some? && Walk(s, o, o.Key().value).Err?)
            && (c.Copied? ==>
                  var n := c.copy;
                  && n.blocks != []
                  && n.deps == o.deps && n.Root().deps == o.Root().deps
                  && AllExpire(n.blocks, expiry) && AllCoherent(n.blocks)
                  && Content(s, n) == Content(s, o)
                  && var leaves := Walk(s, o, o.Key().value).value.leaves;
                     && |n.blocks| > |leaves| && n.blocks[..|leaves|] == Expire(leaves, expiry)
                     && (|leaves| == 1 ==> |n.blocks| == 2))
  {
    hide Collect, CopyBlocks, Opens;
    if o.Key().Some? {
      var key := o.Key().value;
      CollectYields(s, o.blocks, [(o.Id(), key)], |o.blocks| - 1);
      var w := Walk(s, o, key);
      var c := Copy(s, o, expiry, pubkey, secret);
      if w.Ok? && w.value.leaves != [] {
        CollectedLeaves(s, o.blocks, [(o.Id(), key)], |o.blocks| - 1);
        LeafSizes(s, o.blocks, w.value.leaves);
        assert w.value.leaves[0] in w.value.leaves;
        CopyOfLeaves(s, w.value.leaves, w.value.content, o.Root().deps, expiry,
                     s.convergenceKey(pubkey, secret), c.copy);
      }
    }
  }

  /**
   * A copy loads only from stores that hold its blocks. From one that also
   * resolves its deps, it loads back as it is, with the content of the
   * original, exactly if no leaf of the original has children: always, for an
   * object built by `new`. A leaf's children would be loaded along with it.
   */
  lemma CopyLoads(s: Suite, o: Object, expiry: Option<Timestamp>, pubkey: Key, secret: Key, st: Store)
    requires o.blocks != [] && InMemory(o.blocks) && Filed(st)
    requires Copy(s, o, expiry, pubkey, secret).Copied?
    ensures var n := Copy(s, o, expiry, pubkey, secret).copy;
            var r := Load(s, st, n.Id(), n.Key());
            && (r.Ok? ==> Contains(st, n.blocks))
            && (Contains(st, n.blocks) && LoadDeps(s, st, n.Root().deps) == Ok(n.deps) ==>
                  && (r.Ok? && Alike(r.value.blocks, n.blocks) <==> Childless(Walk(s, o, o.Key().value).value.leaves))
                  && (r.Ok? ==> r.value.deps == o.deps)
                  && (r.Ok? && Alike(r.value.blocks, n.blocks) ==> Content(s, r.value) == Content(s, o)))
  {
    hide Collect, Opens, LoadDeps, Load, CopyBlocks, Contains, AllExpire, AllCoherent, Childless, Alike, Layout, Missing;
    CopyKeeps(s, o, expiry, pubkey, secret);
    var key := o.Key().value;
    CollectedLeaves(s, o.blocks, [(o.Id(), key)], |o.blocks| - 1);
    var leaves := Walk(s, o, key).value.leaves;
    LeafSizes(s, o.blocks, leaves);
    assert leaves[0] in leaves;
    var n := Copy(s, o, expiry, pubkey, secret).copy;
    CopyBlocksLoad(s, leaves, o.Root().deps, expiry, s.convergenceKey(pubkey, secret), st);
    LoadMeans(s, st, n.blocks, n.Key());
    var r := Load(s, st, n.Id(), n.Key());
    if r.Ok? && Alike(r.value.blocks, n.blocks) {
      ContentAlike(s, r.value, n);
    }
  }

  /** What loading from a root that is the last of some blocks gives. */
  lemma LoadMeans(s: Suite, st: Store, blocks: seq<Block>, key: Option<Key>)
    requires Filed(st) && blocks != [] && AllCoherent(blocks) && key.Some?
    ensures var root := blocks[|blocks| - 1];
            var r := Load(s, st, root.Id(), key);
            && (r.Ok? ==> Missing(st, [root.Id()]) == [] && LoadDeps(s, st, root.deps) == Ok(r.value.deps))
            && (Missing(st, [root.Id()]) == [] && LoadDeps(s, st, root.deps).Ok? ==> r.Ok?)
            && (r.Ok? ==> (Alike(r.value.blocks, blocks) <==> Alike(Layout(st, [root.Id()]), blocks)) && r.value.Key() == key)
  {
    hide Missing, Layout, LoadDeps;
    var root := blocks[|blocks| - 1];
    assert root.Coherent();
    if root.Id() in st {
      LayoutEndsWith(st, root.Id());
      LayoutCoherent(st, [root.Id()]);
      RootKeyAlike(Layout(st, [root.Id()]), key);
    } else {
      MissingRoot(st, root.Id());
    }
  }

  lemma CopyBlocksLoad(s: Suite, leaves: seq<Block>, rootDeps: ObjectDeps, expiry: Option<Timestamp>,
                       convKey: Key, st: Store)
    requires leaves != [] && Keyed(leaves) && Filed(st)
    requires |leaves[0].content| + Sizes.HEADER < Sizes.USIZE_LIMIT
    ensures var blocks := CopyBlocks(s, leaves, rootDeps, expiry, convKey);
            var root := blocks[|blocks| - 1].Id();
            && (Missing(st, [root]) == [] ==> Contains(st, blocks))
            && (Contains(st, blocks) ==> (Missing(st, [root]) == [] && Alike(Layout(st, [root]), blocks) <==> Childless(leaves)))
  {
    hide Tree, Missing, Layout;
    Sizes.ArityRange(|leaves[0].content|);
    var arity := Sizes.Arity(Sizes.ValidValueSize(|leaves[0].content|));
    var p, copies := TreeParams(s, convKey, rootDeps, expiry, arity), Expire(leaves, expiry);
    var tree := Tree(p, copies);
    assert Childless(copies) <==> Childless(leaves) by { SameChildren(leaves, expiry); }
    ContainsConcat(st, copies, tree);
    if Childless(leaves) {
      LoadBuilt(p, copies, st);
    } else {
      LoadTree(p, copies, st);
      if Missing(st, Ids(copies)) == [] {
        LoadOddLeaves(copies, st);
      }
    }
  }

  lemma SameChildren(leaves: seq<Block>, expiry: Option<Timestamp>)
    ensures Childless(Expire(leaves, expiry)) <==> Childless(leaves)
  {
    var copies := Expire(leaves, expiry);
    forall i | 0 <= i < |leaves|
      ensures copies[i].children == leaves[i].children
    {
    }
  }

  /** An object of one block, which holds no data and has a child. */
  function OddObject(s: Suite, key: Key): Object {
    Object([NewBlock([Foreign(0)], NO_DEPS, None, s.Crypt(key, Bare.Serialize(DataChunk([]))), Some(key))], [])
  }

  /** Such a block, as the root of an object, is its leaf. */
  lemma OddObjectReads(s: Suite, key: Key)
    ensures var o := OddObject(s, key); o.Key() == Some(key) && Walk(s, o, key) == Ok(Yield(o.blocks, []))
  {
    var o := OddObject(s, key);
    var root := o.blocks[0];
    s.CryptInvolutive(key, Bare.Serialize(DataChunk([])));
    Bare.ContentRoundTrip(DataChunk([]));
    var refs: Refs := [(o.Id(), key)];
    assert refs[1..] == [];
    OpenNothing(s, o.blocks, 1);
    assert OpenBlock(s, root, o.Id(), key) == Ok(Level([], [root], []));
    assert Join(Level([], [root], []), Level([], [], [])) == Level([], [root], []);
    assert OpenLevel(s, o.blocks, refs, 0) == Ok(Level([], [root], []));
    assert Collect(s, o.blocks, refs, 0) == Ok(Yield([root], []));
  }

  /** An input whose copy does not load back as it is, from any store that holds it. */
  lemma OddLeafCopyLost(s: Suite, key: Key, expiry: Option<Timestamp>, pubkey: Key, secret: Key, st: Store)
    requires Filed(st)
    ensures var o := OddObject(s, key);
            && InMemory(o.blocks) && AllCoherent(o.blocks) && Copy(s, o, expiry, pubkey, secret).Copied?
            && var n := Copy(s, o, expiry, pubkey, secret).copy;
               var r := Load(s, st, n.Id(), n.Key());
               Contains(st, n.blocks) ==> !(r.Ok? && Alike(r.value.blocks, n.blocks))
  {
    var o := OddObject(s, key);
    Bare.ContentSize(DataChunk([]));
    assert InMemory(o.blocks) && AllCoherent(o.blocks);
    assert o.blocks[0].children == [Foreign(0)];
    OddObjectReads(s, key);
    hide OddObject, Load, Copy, Walk, Contains, Alike;
    CopyKeeps(s, o, expiry, pubkey, secret);
    CopyLoads(s, o, expiry, pubkey, secret, st);
  }

  /** An input on which `copy` panics: an object that is one internal node without children. */
  lemma LeaflessCopyPanics(s: Suite, key: Key, expiry: Option<Timestamp>, pubkey: Key, secret: Key) returns (o: Object)
    ensures o.blocks != [] && InMemory(o.blocks) && o.Key() == Some(key) && AllCoherent(o.blocks)
    ensures Copy(s, o, expiry, pubkey, secret) == CopyPanic
  {
    var plain := Bare.Serialize(InternalNode([]));
    var root := NewBlock([], NO_DEPS, None, s.Crypt(key, plain), Some(key));
    o := Object([root], []);
    s.CryptInvolutive(key, plain);
    Bare.ContentRoundTrip(InternalNode([]));
    Bare.ContentSize(InternalNode([]));
    var refs: Refs := [(root.Id(), key)];
    assert refs[1..] == [];
    OpenNothing(s, [root], 1);
    assert OpenBlock(s, root, root.Id(), key) == Ok(Level([], [], []));
    assert Join(Level([], [], []), Level([], [], [])) == Level([], [], []);
    assert OpenLevel(s, [root], refs, 0) == Ok(Level([], [], []));
    assert Collect(s, [root], refs, 0) == Ok(Yield([], []));
  }
}
