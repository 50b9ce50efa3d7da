// What a store must hold for a built object to load, and what it loads as.

module Storing {
  import opened Types
  import opened Objects
  import opened RoundTrip
  import Bare
  import Sizes

  // ----- Blocks that differ in their unserialized fields only -----

  /** Same ids and same serialized fields, one by one; keys and cached ids may differ. */
  predicate Alike(a: seq<Block>, b: seq<Block>) {
    && |a| == |b|
    && forall i :: 0 <= i < |a| ==> a[i].Hash() == b[i].Hash() && a[i].Id() == b[i].Id()
  }

  lemma AlikeConcat(a: seq<Block>, b: seq<Block>, c: seq<Block>, d: seq<Block>)
    requires Alike(a, b) && Alike(c, d)
    ensures Alike(a + c, b + d)
  {
  }

  lemma {:induction false} ChildrenAlike(a: seq<Block>, b: seq<Block>)
    requires Alike(a, b)
    ensures Children(a) == Children(b)
  {
    if a != [] {
      assert a[0].Hash() == b[0].Hash();
      ChildrenAlike(a[1..], b[1..]);
    }
  }

  /** The same outcome: the same error, or the same content from leaves opened with the same keys. */
  predicate SameYield(a: Result<Yield, ParseError>, b: Result<Yield, ParseError>) {
    match (a, b)
    case (Err(e), Err(f)) => e == f
    case (Ok(x), Ok(y)) => x.content == y.content && SameLeaves(x.leaves, y.leaves)
    case _ => false
  }

  predicate SameLeaves(a: seq<Block>, b: seq<Block>) {
    Alike(a, b) && forall i :: 0 <= i < |a| ==> a[i].key == b[i].key
  }

  predicate SameLevel(a: Result<Level, ParseError>, b: Result<Level, ParseError>) {
    match (a, b)
    case (Err(e), Err(f)) => e == f
    case (Ok(x), Ok(y)) => x.below == y.below && x.content == y.content && SameLeaves(x.leaves, y.leaves)
    case _ => false
  }

  lemma OpenAlike(s: Suite, a: Block, b: Block, id: Digest, key: Key)
    requires a.Hash() == b.Hash() && a.Id() == b.Id()
    ensures SameLevel(OpenBlock(s, a, id, key), OpenBlock(s, b, id, key))
  {
    assert a.content == b.content && a.children == b.children;
  }

  lemma {:induction false} OpenLevelAlike(s: Suite, a: seq<Block>, b: seq<Block>, parents: Refs, index: nat)
    requires Alike(a, b) && index + |parents| <= |a|
    ensures SameLevel(OpenLevel(s, a, parents, index), OpenLevel(s, b, parents, index))
    decreases |parents|
  {
    hide OpenBlock;
    if parents != [] {
      OpenAlike(s, a[index], b[index], parents[0].0, parents[0].1);
      OpenLevelAlike(s, a, b, parents[1..], index + 1);
    }
  }

  /** Walks do not see keys and cached ids. */
  lemma {:induction false} CollectAlike(s: Suite, a: seq<Block>, b: seq<Block>, parents: Refs, index: nat)
    requires Alike(a, b) && index + |parents| <= |a|
    ensures SameYield(Collect(s, a, parents, index), Collect(s, b, parents, index))
    decreases index
  {
    hide OpenLevel;
    OpenLevelAlike(s, a, b, parents, index);
    var level := OpenLevel(s, a, parents, index);
    if level.Ok? && level.value.below != [] && |level.value.below| <= index {
      CollectAlike(s, a, b, level.value.below, index - |level.value.below|);
    }
  }

  // ----- Loading what was built -----

  predicate Contains(st: Store, bs: seq<Block>) {
    forall i :: 0 <= i < |bs| ==> bs[i].Id() in st
  }

  predicate AllCoherent(bs: seq<Block>) {
    forall i :: 0 <= i < |bs| ==> bs[i].Coherent()
  }

  lemma {:induction false} FoundAlike(st: Store, bs: seq<Block>)
    requires Filed(st) && Contains(st, bs) && AllCoherent(bs)
    ensures Alike(Found(st, Ids(bs)), bs)
  {
    if bs != [] {
      assert Ids(bs)[1..] == Ids(bs[1..]);
      assert bs[0].Id() in st;
      FoundAlike(st, bs[1..]);
    }
  }

  lemma {:induction false} AbsentNone(st: Store, bs: seq<Block>)
    ensures Absent(st, Ids(bs)) == [] <==> Contains(st, bs)
  {
    if bs != [] {
      assert Ids(bs)[1..] == Ids(bs[1..]);
      AbsentNone(st, bs[1..]);
      if Contains(st, bs[1..]) && bs[0].Id() in st {
        forall i | 0 <= i < |bs| ensures bs[i].Id() in st {
          if i > 0 { assert bs[i] == bs[1..][i - 1]; }
        }
      }
      if Contains(st, bs) {
        assert bs[0].Id() in st;
      }
    }
  }

  lemma ReverseNone<T>(s: seq<T>)
    ensures Reverse(s) == [] <==> s == []
  {
  }

  /** Nothing is missing under a level when the level is there and nothing is missing below it. */
  lemma MissingNone(st: Store, ids: seq<Digest>)
    requires Filed(st)
    ensures Missing(st, ids) == [] <==>
              Absent(st, ids) == [] && (Below(st, ids) == [] || Missing(st, Below(st, ids)) == [])
  {
    ReverseNone(Absent(st, ids));
  }

  lemma ParentFields(p: TreeParams, nodes: seq<Block>, deps: ObjectDeps)
    requires Keyed(nodes)
    ensures var b := Parent(p, nodes, deps);
            b.children == Ids(nodes) && b.deps == deps && b.expiry == p.expiry && b.Coherent()
  {
  }

  lemma ChildrenCons(head: Block, tail: seq<Block>)
    ensures Children([head] + tail) == head.children + Children(tail)
  {
    assert ([head] + tail)[1..] == tail;
  }

  /** The children of a level of parents are the blocks it was built on, in order. */
  lemma {:induction false} ChildrenOfLevel(p: TreeParams, nodes: seq<Block>, first: bool)
    requires p.arity >= 2 && Keyed(nodes)
    ensures Children(ParentLevel(p, nodes, first)) == Ids(nodes)
    ensures AllCoherent(ParentLevel(p, nodes, first))
    decreases |nodes|
  {
    hide Parent;
    if nodes != [] {
      hide ParentLevel, Children;
      var n := RunOf(nodes, p.arity);
      var deps := if first && n == |nodes| then p.rootDeps else NO_DEPS;
      ParentLevelStep(p, nodes, first);
      ChildrenOfLevel(p, nodes[n..], false);
      ParentFields(p, nodes[..n], deps);
      ChildrenCons(Parent(p, nodes[..n], deps), ParentLevel(p, nodes[n..], false));
      assert Ids(nodes[..n]) + Ids(nodes[n..]) == Ids(nodes);
    }
  }

  lemma {:induction false} TreeCoherent(p: TreeParams, nodes: seq<Block>)
    requires p.arity >= 2 && Keyed(nodes) && nodes != []
    ensures AllCoherent(Tree(p, nodes))
    decreases |nodes|
  {
    var level := ParentLevel(p, nodes, true);
    TreeTop(p, nodes);
    ChildrenOfLevel(p, nodes, true);
    if 1 < |level| {
      ParentLevelShrinks(p, nodes);
      TreeCoherent(p, level);
    }
  }

  /** Loading a level of parents is loading the level below, then the parents. */
  lemma LoadParents(p: TreeParams, nodes: seq<Block>, st: Store)
    requires p.arity >= 2 && Keyed(nodes) && nodes != [] && Filed(st)
    ensures var level := ParentLevel(p, nodes, true);
            && (Missing(st, Ids(level)) == [] <==> Contains(st, level) && Missing(st, Ids(nodes)) == [])
            && (Contains(st, level) ==> Alike(Layout(st, Ids(level)), Layout(st, Ids(nodes)) + level))
  {
    hide ParentLevel, Tree, Found, Absent;
    var level := ParentLevel(p, nodes, true);
    ChildrenOfLevel(p, nodes, true);
    MissingNone(st, Ids(level));
    AbsentNone(st, level);
    if Contains(st, level) {
      FoundAlike(st, level);
      ChildrenAlike(Found(st, Ids(level)), level);
      assert Below(st, Ids(level)) == Ids(nodes);
      AlikeConcat(Layout(st, Ids(nodes)), Layout(st, Ids(nodes)), Found(st, Ids(level)), level);
    }
  }

  /** A tree loads from its root exactly when its blocks and everything below are stored. */
  lemma {:induction false} LoadTree(p: TreeParams, nodes: seq<Block>, st: Store)
    requires p.arity >= 2 && Keyed(nodes) && nodes != [] && Filed(st)
    ensures var tree := Tree(p, nodes);
            var root := tree[|tree| - 1].Id();
            && (Missing(st, [root]) == [] <==> Contains(st, tree) && Missing(st, Ids(nodes)) == [])
            && (Contains(st, tree) ==> Alike(Layout(st, [root]), Layout(st, Ids(nodes)) + tree))
    decreases |nodes|
  {
    hide ParentLevel, Missing, Layout;
    var level := ParentLevel(p, nodes, true);
    TreeTop(p, nodes);
    LoadParents(p, nodes, st);
    if 1 < |level| {
      ParentLevelShrinks(p, nodes);
      LoadTree(p, level, st);
      LoadUpper(p, nodes, level, Tree(p, level), st);
    } else {
      assert Ids(level) == [level[0].Id()];
    }
  }

  /** The step of the induction: the tree over the parents, put on top of the parents. */
  lemma LoadUpper(p: TreeParams, nodes: seq<Block>, level: seq<Block>, upper: seq<Block>, st: Store)
    requires Filed(st) && upper != []
    requires var root := upper[|upper| - 1].Id();
             && (Missing(st, [root]) == [] <==> Contains(st, upper) && Missing(st, Ids(level)) == [])
             && (Contains(st, upper) ==> Alike(Layout(st, [root]), Layout(st, Ids(level)) + upper))
    requires Missing(st, Ids(level)) == [] <==> Contains(st, level) && Missing(st, Ids(nodes)) == []
    requires Contains(st, level) ==> Alike(Layout(st, Ids(level)), Layout(st, Ids(nodes)) + level)
    ensures var tree := level + upper;
            var root := tree[|tree| - 1].Id();
            && (Missing(st, [root]) == [] <==> Contains(st, tree) && Missing(st, Ids(nodes)) == [])
            && (Contains(st, tree) ==> Alike(Layout(st, [root]), Layout(st, Ids(nodes)) + tree))
  {
    hide Missing, Layout;
    var tree := level + upper;
    ContainsConcat(st, level, upper);
    if Contains(st, tree) {
      var lower := Layout(st, Ids(nodes));
      AlikeConcat(Layout(st, Ids(level)), lower + level, upper, upper);
      assert lower + level + upper == lower + tree;
    }
  }

  lemma ContainsConcat(st: Store, a: seq<Block>, b: seq<Block>)
    ensures Contains(st, a + b) <==> Contains(st, a) && Contains(st, b)
  {
    if Contains(st, a + b) {
      forall i | 0 <= i < |a| ensures a[i].Id() in st { assert (a + b)[i] == a[i]; }
      forall i | 0 <= i < |b| ensures b[i].Id() in st { assert (a + b)[|a| + i] == b[i]; }
    }
  }

  ghost predicate Childless(bs: seq<Block>) {
    forall i :: 0 <= i < |bs| ==> bs[i].children == []
  }

  lemma {:induction false} NoChildren(bs: seq<Block>)
    requires Childless(bs)
    ensures Children(bs) == []
  {
    if bs != [] {
      NoChildren(bs[1..]);
    }
  }

  lemma LoadLeaves(leaves: seq<Block>, st: Store)
    requires Filed(st) && Childless(leaves) && AllCoherent(leaves)
    ensures Missing(st, Ids(leaves)) == [] <==> Contains(st, leaves)
    ensures Contains(st, leaves) ==> Alike(Layout(st, Ids(leaves)), leaves)
  {
    hide Found, Absent;
    AbsentNone(st, leaves);
    MissingNone(st, Ids(leaves));
    if Contains(st, leaves) {
      FoundAlike(st, leaves);
      ChildrenAlike(Found(st, Ids(leaves)), leaves);
      NoChildren(leaves);
      assert [] + Found(st, Ids(leaves)) == Found(st, Ids(leaves));
    }
  }

  lemma {:induction false} SomeChildren(bs: seq<Block>)
    requires !Childless(bs)
    ensures Children(bs) != []
  {
    if bs[0].children == [] {
      assert !Childless(bs[1..]) by {
        var i :| 0 <= i < |bs| && bs[i].children != [];
        assert bs[1..][i - 1] == bs[i];
      }
      SomeChildren(bs[1..]);
    }
  }

  /** Where nothing is missing under some ids, something is laid out. */
  lemma LayoutOfSome(st: Store, ids: seq<Digest>)
    requires Filed(st) && ids != [] && Missing(st, ids) == []
    ensures Layout(st, ids) != []
  {
    MissingNone(st, ids);
  }

  /** Leaves that have children bring more blocks with them. */
  lemma LoadOddLeaves(leaves: seq<Block>, st: Store)
    requires Filed(st) && AllCoherent(leaves) && !Childless(leaves) && Missing(st, Ids(leaves)) == []
    ensures Contains(st, leaves) && |Layout(st, Ids(leaves))| > |leaves|
  {
    hide Found, Absent;
    AbsentNone(st, leaves);
    MissingNone(st, Ids(leaves));
    FoundAlike(st, leaves);
    ChildrenAlike(Found(st, Ids(leaves)), leaves);
    SomeChildren(leaves);
    LayoutOfSome(st, Below(st, Ids(leaves)));
  }

  /** Leaves and the tree over them load back as they are, exactly when all are stored. */
  lemma LoadBuilt(p: TreeParams, leaves: seq<Block>, st: Store)
    requires p.arity >= 2 && Keyed(leaves) && leaves != [] && Filed(st)
    requires Childless(leaves) && AllCoherent(leaves)
    ensures var blocks := leaves + Tree(p, leaves);
            LoadsAs(st, blocks)
  {
    hide Missing, Layout, Tree;
    var tree := Tree(p, leaves);
    LoadTree(p, leaves, st);
    LoadLeaves(leaves, st);
    ContainsConcat(st, leaves, tree);
    if Contains(st, leaves + tree) {
      AlikeConcat(Layout(st, Ids(leaves)), leaves, tree, tree);
    }
  }

  /** Loading from the last of `blocks` finds everything exactly when all are stored, and then finds them. */
  ghost predicate LoadsAs(st: Store, blocks: seq<Block>)
    requires Filed(st) && blocks != []
  {
    var root := blocks[|blocks| - 1].Id();
    && (Missing(st, [root]) == [] <==> Contains(st, blocks))
    && (Contains(st, blocks) ==> Alike(Layout(st, [root]), blocks))
  }

  lemma {:induction false} LeavesPlain(s: Suite, convKey: Key, expiry: Option<Timestamp>, chunks: seq<seq<byte>>)
    ensures var leaves := Leaves(s, convKey, expiry, chunks); Childless(leaves) && AllCoherent(leaves)
  {
    if chunks != [] {
      LeavesPlain(s, convKey, expiry, chunks[1..]);
    }
  }

  /** What `Object::new` lays out loads back as it is, exactly when all of it is stored. */
  lemma LoadNewBlocks(s: Suite, bytes: seq<byte>, depCount: nat, rootDeps: ObjectDeps,
                      expiry: Option<Timestamp>, validSize: nat, convKey: Key, st: Store)
    requires Sizes.MIN_SIZE <= validSize && bytes != [] && Filed(st)
    ensures LoadsAs(st, NewBlocks(s, bytes, depCount, rootDeps, expiry, validSize, convKey))
  {
    hide Missing, Layout, Tree;
    if SingleBlock(bytes, depCount, validSize) {
      var root := MakeBlock(s, convKey, Bare.Serialize(DataChunk(bytes)), [], rootDeps, expiry);
      LoadLeaves([root], st);
      assert Ids([root]) == [root.Id()];
    } else {
      var chunks := Chunks(bytes, ChunkSize(validSize));
      LeavesPlain(s, convKey, expiry, chunks);
      var p := TreeParams(s, convKey, rootDeps, expiry, Sizes.Arity(validSize));
      LoadBuilt(p, Leaves(s, convKey, expiry, chunks), st);
    }
  }

  // ----- The round trip -----

  /** Everything read from a loaded object is what building it put in. */
  lemma ReadBack(s: Suite, bytes: seq<byte>, depCount: nat, rootDeps: ObjectDeps,
                 expiry: Option<Timestamp>, validSize: nat, convKey: Key, loaded: Object)
    requires Sizes.MIN_SIZE <= validSize && bytes != []
    requires var blocks := NewBlocks(s, bytes, depCount, rootDeps, expiry, validSize, convKey);
             && Alike(loaded.blocks, blocks)
             && loaded.blocks != []
             && loaded.Key() == blocks[|blocks| - 1].key
    ensures var r := Walk(s, loaded, loaded.Key().value); r.Ok? && r.value.content == bytes
  {
    hide NewBlocks, Walk;
    var built := Object(NewBlocks(s, bytes, depCount, rootDeps, expiry, validSize, convKey), []);
    WalkNew(s, bytes, depCount, rootDeps, expiry, validSize, convKey, built);
    WalkAlike(s, loaded, built);
  }

  lemma WalkAlike(s: Suite, a: Object, b: Object)
    requires a.blocks != [] && Alike(a.blocks, b.blocks) && a.Key() == b.Key() && a.Key().Some?
    ensures SameYield(Walk(s, a, a.Key().value), Walk(s, b, b.Key().value))
  {
    hide Collect;
    CollectAlike(s, a.blocks, b.blocks, [(b.Id(), b.Key().value)], |b.blocks| - 1);
  }

  lemma RootKeyAlike(blocks: seq<Block>, key: Option<Key>)
    requires blocks != [] && AllCoherent(blocks)
    ensures Alike(WithRootKey(blocks, key), blocks)
    ensures key.Some? ==> Object(WithRootKey(blocks, key), []).Key() == key
  {
  }

  lemma {:induction false} FoundCoherent(st: Store, ids: seq<Digest>)
    requires Filed(st)
    ensures AllCoherent(Found(st, ids))
  {
    if ids != [] {
      FoundCoherent(st, ids[1..]);
    }
  }

  lemma {:induction false} LayoutCoherent(st: Store, ids: seq<Digest>)
    requires Filed(st)
    ensures AllCoherent(Layout(st, ids))
    decreases MaxHeight(ids)
  {
    FoundCoherent(st, ids);
    BelowIsLower(st, ids);
    if Below(st, ids) != [] {
      LayoutCoherent(st, Below(st, ids));
    }
  }

  /** A root whose tree is all stored loads, but for its deps; its blocks are those built. */
  lemma LoadBlocks(s: Suite, st: Store, blocks: seq<Block>, key: Option<Key>)
    requires Filed(st) && blocks != [] && LoadsAs(st, blocks)
    ensures var root := blocks[|blocks| - 1];
            var r := Load(s, st, root.Id(), key);
            && (!Contains(st, blocks) ==> r.Err? && r.error.MissingBlocks?)
            && (Contains(st, blocks) ==>
                  match LoadDeps(s, st, root.deps)
                  case Err(e) => r == Err(e)
                  case Ok(deps) => r.Ok? && r.value.deps == deps && Alike(r.value.blocks, blocks)
                                   && (key.Some? ==> r.value.Key() == key))
  {
    hide Missing, Layout, LoadDeps;
    var root := blocks[|blocks| - 1];
    if Contains(st, blocks) {
      assert st[root.Id()].deps == root.deps by {
        var l := Layout(st, [root.Id()]);
        LayoutEndsWith(st, root.Id());
        assert l[|l| - 1].Hash() == root.Hash();
      }
      LayoutCoherent(st, [root.Id()]);
      RootKeyAlike(Layout(st, [root.Id()]), key);
    }
  }

  /** The dep list comes back exactly when the blocks of the dep-list object are stored. */
  lemma LoadDepList(s: Suite, deps: seq<Digest>, validSize: nat, convKey: Key, st: Store)
    requires s.Sound() && Filed(st) && |deps| > 8
    requires Sizes.MIN_SIZE <= validSize <= Sizes.MAX_VALUE_SIZE
    ensures var r := LoadDeps(s, st, MakeDeps(s, deps, validSize, convKey));
            if Contains(st, DepListBlocks(s, deps, validSize, convKey)) then r == Ok(deps)
            else r.Err? && r.error.MissingBlocks?
  {
    hide NewBlocks, Walk, Load, Contains;
    Sizes.ValidValueSizeFits(validSize);
    var blocks := DepListBlocks(s, deps, validSize, convKey);
    var bytes := s.encode(DepListObject(deps));
    var valid := Sizes.ValidValueSize(validSize);
    LoadNewBlocks(s, bytes, 0, ObjectIdList([]), None, valid, convKey, st);
    var root := blocks[|blocks| - 1];
    LoadBlocks(s, st, blocks, root.key);
    if Contains(st, blocks) {
      NewRootDeps(s, bytes, 0, ObjectIdList([]), None, valid, convKey);
      var loaded := Load(s, st, root.Id(), root.key).value;
      ReadBack(s, bytes, 0, ObjectIdList([]), None, valid, convKey, loaded);
    }
  }

  /** The root, and no other block, carries the deps. */
  lemma NewRootDeps(s: Suite, bytes: seq<byte>, depCount: nat, rootDeps: ObjectDeps,
                    expiry: Option<Timestamp>, validSize: nat, convKey: Key)
    requires Sizes.MIN_SIZE <= validSize && bytes != []
    ensures var blocks := NewBlocks(s, bytes, depCount, rootDeps, expiry, validSize, convKey);
            blocks[|blocks| - 1].deps == rootDeps
  {
    hide Tree;
    if !SingleBlock(bytes, depCount, validSize) {
      var chunks := Chunks(bytes, ChunkSize(validSize));
      TreeRootDeps(TreeParams(s, convKey, rootDeps, expiry, Sizes.Arity(validSize)), Leaves(s, convKey, expiry, chunks));
    }
  }

  lemma {:induction false} TreeRootDeps(p: TreeParams, nodes: seq<Block>)
    requires p.arity >= 2 && Keyed(nodes) && nodes != []
    ensures var tree := Tree(p, nodes); tree[|tree| - 1].deps == p.rootDeps
    decreases |nodes|
  {
    var level := ParentLevel(p, nodes, true);
    TreeTop(p, nodes);
    if 1 < |level| {
      ParentLevelShrinks(p, nodes);
      TreeRootDeps(p, level);
    } else {
      ParentLevelStep(p, nodes, true);
      ParentFields(p, nodes[..RunOf(nodes, p.arity)], p.rootDeps);
      var rest := nodes[RunOf(nodes, p.arity)..];
      assert |ParentLevel(p, rest, false)| == 0;
      assert rest == [];
    }
  }

  /** A new object has the content it was made from. */
  lemma NewReads(s: Suite, content: ObjectContent, deps: seq<Digest>, expiry: Option<Timestamp>,
                 blockSize: nat, pubkey: Key, secret: Key)
    requires s.Sound() && blockSize + Sizes.HEADER < Sizes.USIZE_LIMIT
    ensures Content(s, New(s, content, deps, expiry, blockSize, pubkey, secret)) == Ok(content)
  {
    hide NewBlocks, Walk, MakeDeps;
    Sizes.ValidValueSizeFits(blockSize);
    var o := New(s, content, deps, expiry, blockSize, pubkey, secret);
    var valid := Sizes.ValidValueSize(blockSize);
    var convKey := s.convergenceKey(pubkey, secret);
    WalkNew(s, s.encode(content), |deps|, MakeDeps(s, deps, valid, convKey), expiry, valid, convKey, o);
  }

  /** From a store that holds its blocks, a new object loads exactly when its deps do, and then as it was built. */
  lemma NewLoads(s: Suite, content: ObjectContent, deps: seq<Digest>, expiry: Option<Timestamp>,
                 blockSize: nat, pubkey: Key, secret: Key, st: Store)
    requires s.Sound() && Filed(st) && blockSize + Sizes.HEADER < Sizes.USIZE_LIMIT
    requires Contains(st, New(s, content, deps, expiry, blockSize, pubkey, secret).blocks)
    ensures var o := New(s, content, deps, expiry, blockSize, pubkey, secret);
            var r := Load(s, st, o.Id(), o.Key());
            if |deps| <= 8 || Contains(st, DepListOf(s, deps, blockSize, pubkey, secret)) then
              r.Ok? && Alike(r.value.blocks, o.blocks) && r.value.deps == deps && (o.Key().Some? ==> r.value.Key() == o.Key())
            else r.Err? && r.error.MissingBlocks?
  {
    hide NewBlocks, MakeDeps, LoadDeps, Load, Contains, Filed, DepListBlocks, Alike;
    Sizes.ValidValueSizeFits(blockSize);
    var o := New(s, content, deps, expiry, blockSize, pubkey, secret);
    var valid := Sizes.ValidValueSize(blockSize);
    var convKey := s.convergenceKey(pubkey, secret);
    var rootDeps := MakeDeps(s, deps, valid, convKey);
    NewRootDeps(s, s.encode(content), |deps|, rootDeps, expiry, valid, convKey);
    LoadNewBlocks(s, s.encode(content), |deps|, rootDeps, expiry, valid, convKey, st);
    LoadBlocks(s, st, o.blocks, o.Key());
    DepsBack(s, deps, valid, convKey, st);
  }

  /** Blocks alike under the same root key read alike. */
  lemma ContentAlike(s: Suite, a: Object, b: Object)
    requires a.blocks != [] && Alike(a.blocks, b.blocks) && a.Root().key == b.Root().key
    ensures Content(s, a) == Content(s, b)
  {
    hide Collect;
    if a.Key().Some? {
      CollectAlike(s, a.blocks, b.blocks, [(a.Id(), a.Key().value)], |a.blocks| - 1);
    }
  }

  /**
   * The round trip. From any store that holds an object's blocks, loading the
   * object by id and key gives the same blocks, deps and content; with more
   * than eight deps it does so exactly when the store also holds the blocks of
   * the dep-list object, which `save` does not write.
   */
  lemma RoundTrips(s: Suite, content: ObjectContent, deps: seq<Digest>, expiry: Option<Timestamp>,
                   blockSize: nat, pubkey: Key, secret: Key, st: Store)
    requires s.Sound() && Filed(st)
    requires blockSize + Sizes.HEADER < Sizes.USIZE_LIMIT
    requires Contains(st, New(s, content, deps, expiry, blockSize, pubkey, secret).blocks)
    ensures var o := New(s, content, deps, expiry, blockSize, pubkey, secret);
            var r := Load(s, st, o.Id(), o.Key());
            && Content(s, o) == Ok(content)
            && (r.Ok? <==> |deps| <= 8 || Contains(st, DepListOf(s, deps, blockSize, pubkey, secret)))
            && (r.Ok? ==> Alike(r.value.blocks, o.blocks) && r.value.deps == deps && Content(s, r.value) == Ok(content))
            && (r.Err? ==> r.error.MissingBlocks?)
  {
    hide New, Load, Contains, Filed, DepListOf, Walk, Alike;
    NewReads(s, content, deps, expiry, blockSize, pubkey, secret);
    NewLoads(s, content, deps, expiry, blockSize, pubkey, secret, st);
    var o := New(s, content, deps, expiry, blockSize, pubkey, secret);
    var r := Load(s, st, o.Id(), o.Key());
    if r.Ok? {
      ContentAlike(s, r.value, o);
    }
  }

  /** The blocks of the dep-list object of an object built with these arguments. */
  function DepListOf(s: Suite, deps: seq<Digest>, blockSize: nat, pubkey: Key, secret: Key): seq<Block>
    requires s.encode(DepListObject(deps)) != []
    requires blockSize + Sizes.HEADER < Sizes.USIZE_LIMIT
  {
    Sizes.ValidValueSizeFits(blockSize);
    DepListBlocks(s, deps, Sizes.ValidValueSize(blockSize), s.convergenceKey(pubkey, secret))
  }

  lemma DepsBack(s: Suite, deps: seq<Digest>, validSize: nat, convKey: Key, st: Store)
    requires s.Sound() && Filed(st)
    requires Sizes.MIN_SIZE <= validSize <= Sizes.MAX_VALUE_SIZE
    ensures var r := LoadDeps(s, st, MakeDeps(s, deps, validSize, convKey));
            if |deps| <= 8 || Contains(st, DepListBlocks(s, deps, validSize, convKey)) then r == Ok(deps)
            else r.Err? && r.error.MissingBlocks?
  {
    hide DepListBlocks;
    if |deps| > 8 {
      LoadDepList(s, deps, validSize, convKey, st);
    }
  }
}
