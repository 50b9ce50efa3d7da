// What loading reports, and that a loaded object is laid out as reading expects.

module Loading {
  import opened Types
  import opened Objects
  import opened Storing
  import Bare
  import Sizes

  // ----- The missing frontier -----

  /** A chain of ids, each but the last stored with the next among its children. */
  ghost predicate Path(st: Store, path: seq<Digest>) {
    && path != []
    && forall i :: 0 <= i < |path| - 1 ==> path[i] in st && path[i + 1] in st[path[i]].children
  }

  /** `x` is wanted under `id` but not stored. */
  ghost predicate Frontier(st: Store, id: Digest, x: Digest) {
    x !in st && exists path :: Path(st, path) && path[0] == id && path[|path| - 1] == x
  }

  lemma {:induction false} InReverse<T>(s: seq<T>, x: T)
    ensures x in Reverse(s) <==> x in s
  {
    if s != [] {
      InReverse(s[1..], x);
      assert x in s <==> x == s[0] || x in s[1..];
    }
  }

  lemma {:induction false} InAbsent(st: Store, ids: seq<Digest>, x: Digest)
    ensures x in Absent(st, ids) <==> x in ids && x !in st
  {
    if ids != [] {
      InAbsent(st, ids[1..], x);
      assert x in ids <==> x == ids[0] || x in ids[1..];
    }
  }

  lemma {:induction false} InBelow(st: Store, ids: seq<Digest>, x: Digest)
    ensures x in Below(st, ids) <==> exists y :: y in ids && y in st && x in st[y].children
  {
    if ids != [] {
      InBelow(st, ids[1..], x);
      var rest := Found(st, ids[1..]);
      if ids[0] in st {
        ChildrenCons(st[ids[0]], rest);
      } else {
        assert [] + rest == rest;
      }
      assert forall y :: y in ids <==> y == ids[0] || y in ids[1..];
    }
  }

  lemma {:induction false} MissingHasPath(st: Store, ids: seq<Digest>, x: Digest) returns (path: seq<Digest>)
    requires Filed(st) && x in Missing(st, ids)
    ensures x !in st && Path(st, path) && path[0] in ids && path[|path| - 1] == x
    decreases MaxHeight(ids)
  {
    hide Found, Absent, Children;
    InReverse(Absent(st, ids), x);
    InAbsent(st, ids, x);
    if x in Absent(st, ids) {
      path := [x];
    } else {
      BelowIsLower(st, ids);
      var below := Below(st, ids);
      assert below != [] && x in Missing(st, below);
      var tail := MissingHasPath(st, below, x);
      InBelow(st, ids, tail[0]);
      var y :| y in ids && y in st && tail[0] in st[y].children;
      path := [y] + tail;
    }
  }

  lemma {:induction false} PathIsMissing(st: Store, ids: seq<Digest>, path: seq<Digest>)
    requires Filed(st) && Path(st, path) && path[0] in ids && path[|path| - 1] !in st
    ensures path[|path| - 1] in Missing(st, ids)
    decreases |path|
  {
    hide Found, Absent, Children;
    var x := path[|path| - 1];
    InReverse(Absent(st, ids), x);
    InAbsent(st, ids, x);
    if |path| > 1 {
      InBelow(st, ids, path[1]);
      assert path[0] in st && path[1] in st[path[0]].children;
      var below := Below(st, ids);
      var tail := path[1..];
      assert Path(st, tail) by {
        forall i | 0 <= i < |tail| - 1 ensures tail[i] in st && tail[i + 1] in st[tail[i]].children {
          assert tail[i] == path[i + 1] && tail[i + 1] == path[i + 2];
        }
      }
      PathIsMissing(st, below, tail);
    }
  }

  /** The ids `load_tree` misses are those wanted under the root and not stored. */
  lemma MissingIsFrontier(st: Store, id: Digest, x: Digest)
    requires Filed(st)
    ensures x in Missing(st, [id]) <==> Frontier(st, id, x)
  {
    if x in Missing(st, [id]) {
      var path := MissingHasPath(st, [id], x);
    }
    if Frontier(st, id, x) {
      var path :| Path(st, path) && path[0] == id && path[|path| - 1] == x;
      PathIsMissing(st, [id], path);
    }
  }

  /**
   * `load` of a root whose deps are a plain list fails exactly when some id
   * wanted under it is not stored, and then reports exactly those ids.
   */
  lemma LoadReportsFrontier(s: Suite, st: Store, id: Digest, key: Option<Key>)
    requires Filed(st) && (id in st ==> st[id].deps.ObjectIdList?)
    ensures var r := Load(s, st, id, key);
            && (r.Err? <==> exists x :: Frontier(st, id, x))
            && (r.Err? ==> r.error.MissingBlocks? && forall x :: x in r.error.ids <==> Frontier(st, id, x))
  {
    hide Missing, Frontier;
    forall x ensures x in Missing(st, [id]) <==> Frontier(st, id, x) {
      MissingIsFrontier(st, id, x);
    }
    var missing := Missing(st, [id]);
    if missing != [] {
      assert missing[0] in missing;
    }
    if id !in st {
      MissingRoot(st, id);
    }
  }

  // ----- What errors may mean -----

  predicate IsWalkError(e: ParseError) {
    e.InvalidBlockId? || e.InvalidChildren? || e.InvalidKeys? || e.BlockDeserializeError?
  }

  lemma {:induction false} LevelErrors(s: Suite, blocks: seq<Block>, parents: Refs, index: nat)
    requires index + |parents| <= |blocks|
    ensures var r := OpenLevel(s, blocks, parents, index); r.Err? ==> IsWalkError(r.error)
    decreases |parents|
  {
    if parents != [] {
      LevelErrors(s, blocks, parents[1..], index + 1);
    }
  }

  lemma {:induction false} CollectErrors(s: Suite, blocks: seq<Block>, parents: Refs, index: nat)
    requires index + |parents| <= |blocks|
    ensures var r := Collect(s, blocks, parents, index); r.Err? ==> IsWalkError(r.error)
    decreases index
  {
    hide OpenLevel;
    LevelErrors(s, blocks, parents, index);
    var level := OpenLevel(s, blocks, parents, index);
    if level.Ok? && level.value.below != [] && |level.value.below| <= index {
      CollectErrors(s, blocks, level.value.below, index - |level.value.below|);
    }
  }

  ghost predicate AbsentFrom(st: Store, ids: seq<Digest>) {
    ids != [] && forall x <- ids :: x !in st
  }

  /** Whatever `load` reports missing, for the object or its dep list, is not in the store. */
  lemma {:induction false} LoadMissesAbsent(s: Suite, st: Store, id: Digest, key: Option<Key>)
    requires Filed(st)
    ensures var r := Load(s, st, id, key);
            r.Err? && r.error.MissingBlocks? ==> AbsentFrom(st, r.error.ids)
    decreases id, 0
  {
    hide Missing, Layout;
    var missing := Missing(st, [id]);
    forall x | x in missing ensures x !in st {
      MissingIsFrontier(st, id, x);
    }
    if missing == [] {
      assert id in st by { if id !in st { MissingRoot(st, id); } }
      assert st[id].Hash() == id;
      DepsMissAbsent(s, st, st[id].deps);
    }
  }

  lemma {:induction false} DepsMissAbsent(s: Suite, st: Store, deps: ObjectDeps)
    requires Filed(st)
    ensures var r := LoadDeps(s, st, deps);
            r.Err? && r.error.MissingBlocks? ==> AbsentFrom(st, r.error.ids)
    decreases deps, 1
  {
    hide Load, Collect;
    match deps
    case ObjectIdList(_) =>
    case DepListRef(ref) =>
      LoadMissesAbsent(s, st, ref.id, Some(ref.key));
      var list := Load(s, st, ref.id, Some(ref.key));
      if list.Ok? && list.value.Key().Some? {
        var o := list.value;
        CollectErrors(s, o.blocks, [(o.Id(), o.Key().value)], |o.blocks| - 1);
      }
  }

  // ----- Agreement of load and collect_leaves on the layout -----

  function RefIds(refs: Refs): (r: seq<Digest>)
    ensures |r| == |refs|
  {
    seq(|refs|, i requires 0 <= i < |refs| => refs[i].0)
  }

  /** A stored block that opens, under the key it is reached with, to a data chunk, yet has children. */
  ghost predicate OddChunk(s: Suite, st: Store, ref: (Digest, Key)) {
    ref.0 in st
    && st[ref.0].children != []
    && var c := Bare.Deserialize(s.Crypt(ref.1, st[ref.0].content)); c.Some? && c.value.DataChunk?
  }

  /** The references the walk finds under `refs` in the store, internal nodes giving one per child. */
  function RefsBelow(s: Suite, st: Store, refs: Refs): Refs {
    if refs == [] then []
    else
      (if refs[0].0 in st then
         match OpenBlock(s, st[refs[0].0], refs[0].0, refs[0].1)
         case Err(_) => []
         case Ok(level) => level.below
       else [])
      + RefsBelow(s, st, refs[1..])
  }

  /** The walk meets an odd chunk among `refs` or further down, before `levels` levels are done. */
  ghost predicate MeetsOddChunk(s: Suite, st: Store, refs: Refs, levels: nat)
    decreases levels
  {
    (exists ref <- refs :: OddChunk(s, st, ref))
    || (levels > 0 && MeetsOddChunk(s, st, RefsBelow(s, st, refs), levels - 1))
  }

  lemma {:induction false} FoundAll(st: Store, ids: seq<Digest>)
    requires Absent(st, ids) == []
    ensures |Found(st, ids)| == |ids|
    ensures forall i :: 0 <= i < |ids| ==> ids[i] in st && Found(st, ids)[i] == st[ids[i]]
  {
    if ids != [] {
      FoundAll(st, ids[1..]);
    }
  }

  lemma OpenStored(s: Suite, st: Store, ref: (Digest, Key))
    requires Filed(st) && ref.0 in st && !OddChunk(s, st, ref)
    ensures var r := OpenBlock(s, st[ref.0], ref.0, ref.1);
            && r != Err(InvalidBlockId) && r != Err(InvalidChildren)
            && (r.Ok? ==> RefIds(r.value.below) == st[ref.0].children)
  {
    var b := st[ref.0];
    assert b.Id() == ref.0;
    var r := OpenBlock(s, b, ref.0, ref.1);
    if r.Ok? {
      var c := Bare.Deserialize(s.Crypt(ref.1, b.content)).value;
      if c.InternalNode? {
        assert RefIds(Zip(b.children, c.keys)) == b.children;
      } else {
        assert b.children == [];
      }
    }
  }

  /** Opening a stored level, with no odd chunk in it, leads to the ids of the level below. */
  lemma {:induction false} OpenStoredLevel(s: Suite, st: Store, refs: Refs, blocks: seq<Block>, index: nat)
    requires Filed(st) && Absent(st, RefIds(refs)) == []
    requires index + |refs| <= |blocks| && blocks[index..index + |refs|] == Found(st, RefIds(refs))
    requires forall ref <- refs :: !OddChunk(s, st, ref)
    ensures var r := OpenLevel(s, blocks, refs, index);
            && r != Err(InvalidBlockId) && r != Err(InvalidChildren)
            && (r.Ok? ==> r.value.below == RefsBelow(s, st, refs) && RefIds(r.value.below) == Below(st, RefIds(refs)))
    decreases |refs|
  {
    hide OpenBlock, OddChunk;
    if refs != [] {
      var ids := RefIds(refs);
      assert ids[1..] == RefIds(refs[1..]);
      assert ids[0] == refs[0].0 && ids[0] in st;
      var found := Found(st, ids);
      assert found == [st[ids[0]]] + Found(st, ids[1..]);
      assert blocks[index] == blocks[index..index + |refs|][0];
      assert blocks[index + 1..index + |refs|] == blocks[index..index + |refs|][1..];
      OpenStored(s, st, refs[0]);
      OpenStoredLevel(s, st, refs[1..], blocks, index + 1);
      ChildrenCons(st[ids[0]], Found(st, ids[1..]));
      var head, tail := OpenBlock(s, blocks[index], refs[0].0, refs[0].1), OpenLevel(s, blocks, refs[1..], index + 1);
      if head.Ok? && tail.Ok? {
        assert RefIds(head.value.below + tail.value.below) == RefIds(head.value.below) + RefIds(tail.value.below);
      }
    } else {
      assert RefIds([]) == [] && Below(st, []) == [];
    }
  }

  /** Where a level and the one below it lie in the layout. */
  lemma LayoutSplits(st: Store, ids: seq<Digest>)
    requires Filed(st) && Missing(st, ids) == []
    ensures var layout, below := Layout(st, ids), Below(st, ids);
            && Absent(st, ids) == []
            && |ids| <= |layout|
            && layout[|layout| - |ids|..] == Found(st, ids)
            && (below != [] ==>
                  && Missing(st, below) == []
                  && MaxHeight(below) < MaxHeight(ids)
                  && |Layout(st, below)| == |layout| - |ids|
                  && Layout(st, below) <= layout)
  {
    MissingNone(st, ids);
    FoundAll(st, ids);
    BelowIsLower(st, ids);
  }

  /**
   * On the layout of stored levels the walk finds each level where it looks for
   * it: unless it meets an odd chunk, it never takes a block for another one
   * and never runs out of blocks before the level below.
   */
  lemma {:induction false} CollectStored(s: Suite, st: Store, refs: Refs, blocks: seq<Block>)
    requires Filed(st) && Missing(st, RefIds(refs)) == []
    requires Layout(st, RefIds(refs)) <= blocks
    requires !MeetsOddChunk(s, st, refs, MaxHeight(RefIds(refs)))
    ensures var layout := Layout(st, RefIds(refs));
            && |refs| <= |layout|
            && layout[|layout| - |refs|..] == Found(st, RefIds(refs))
            && var r := Collect(s, blocks, refs, |layout| - |refs|);
               r != Err(InvalidBlockId) && r != Err(InvalidChildren)
    decreases MaxHeight(RefIds(refs))
  {
    hide OpenLevel, OpenBlock, OddChunk, RefsBelow, MaxHeight, Absent, Found, Missing, Layout, RefIds;
    var ids := RefIds(refs);
    var layout, below := Layout(st, ids), Below(st, ids);
    LayoutSplits(st, ids);
    var index := |layout| - |refs|;
    assert blocks[index..index + |refs|] == layout[index..];
    OpenStoredLevel(s, st, refs, blocks, index);
    var level := OpenLevel(s, blocks, refs, index);
    if level.Ok? && level.value.below != [] {
      var next := level.value.below;
      assert |RefIds(next)| == |next| && RefIds(next) == below;
      StillNoOddChunk(s, st, next, MaxHeight(ids) - 1, MaxHeight(below));
      CollectStored(s, st, next, blocks);
    }
  }

  lemma {:induction false} StillNoOddChunk(s: Suite, st: Store, refs: Refs, many: nat, few: nat)
    requires few <= many && !MeetsOddChunk(s, st, refs, many)
    ensures !MeetsOddChunk(s, st, refs, few)
    decreases few
  {
    if few > 0 {
      StillNoOddChunk(s, st, RefsBelow(s, st, refs), many - 1, few - 1);
    }
  }

  /**
   * A loaded object fails to be read with `InvalidBlockId` or `InvalidChildren`
   * only if the store holds, under it, a data chunk that has children.
   */
  lemma LoadedObjectReads(s: Suite, st: Store, id: Digest, key: Key)
    requires Filed(st) && Load(s, st, id, Some(key)).Ok?
    requires !MeetsOddChunk(s, st, [(id, key)], Height(id))
    ensures var o := Load(s, st, id, Some(key)).value;
            && o.Key() == Some(key) && o.Id() == id
            && var r := Walk(s, o, key); r != Err(InvalidBlockId) && r != Err(InvalidChildren)
  {
    hide Collect, MeetsOddChunk, LoadDeps, Layout, Missing, RefsBelow;
    var refs := [(id, key)];
    assert RefIds(refs) == [id];
    assert MaxHeight([id]) == Height(id) by { assert [id][1..] == []; }
    var layout := Layout(st, [id]);
    assert id in st by { if id !in st { MissingRoot(st, id); } }
    LayoutEndsWith(st, id);
    CollectStored(s, st, refs, layout);
    LayoutCoherent(st, [id]);
    RootKeyAlike(layout, Some(key));
    var o := Load(s, st, id, Some(key)).value;
    CollectAlike(s, layout, o.blocks, refs, |layout| - 1);
  }

  // ----- Saving -----

  ghost predicate Holds(st: Store, ids: set<Digest>) {
    forall id <- ids :: id in st
  }

  lemma {:induction false} SaveHolds(st: Store, blocks: seq<Block>, done: set<Digest>)
    requires Filed(st) && AllCoherent(blocks) && Holds(st, done)
    ensures var after := Save(st, blocks, done);
            && Filed(after) && Contains(after, blocks)
            && (forall id :: id in after <==> id in st || id in Ids(blocks))
            && (forall id :: id in st ==> after[id].Stripped() == st[id].Stripped())
    decreases |blocks|
  {
    if blocks != [] {
      var b := blocks[0];
      assert b.Coherent();
      var next, seen := if b.Id() in done then st else Put(st, b), done + {b.Id()};
      assert b.Id() in done ==> seen == done;
      assert Save(st, blocks, done) == Save(next, blocks[1..], seen);
      if b.Id() in st {
        assert st[b.Id()].Hash() == b.Hash();
      }
      SaveHolds(next, blocks[1..], seen);
      IdsCons(blocks);
      var after := Save(st, blocks, done);
      forall i | 0 <= i < |blocks| ensures blocks[i].Id() in after {
        if i > 0 { assert blocks[i] == blocks[1..][i - 1]; }
      }
    }
  }

  lemma IdsCons(blocks: seq<Block>)
    requires blocks != []
    ensures Ids(blocks) == [blocks[0].Id()] + Ids(blocks[1..])
  {
  }

  lemma NewCoherent(s: Suite, bytes: seq<byte>, depCount: nat, rootDeps: ObjectDeps,
                    expiry: Option<Timestamp>, validSize: nat, convKey: Key)
    requires Sizes.MIN_SIZE <= validSize && bytes != []
    ensures AllCoherent(NewBlocks(s, bytes, depCount, rootDeps, expiry, validSize, convKey))
  {
    hide Tree;
    if !SingleBlock(bytes, depCount, validSize) {
      var chunks := Chunks(bytes, ChunkSize(validSize));
      LeavesPlain(s, convKey, expiry, chunks);
      TreeCoherent(TreeParams(s, convKey, rootDeps, expiry, Sizes.Arity(validSize)), Leaves(s, convKey, expiry, chunks));
    }
  }

  /**
   * Saving a new object to any store and loading it back gives the object, its
   * deps and its content, for up to eight deps. With more it does so exactly
   * when the dep-list object's blocks are in the store for another reason.
   */
  lemma SaveThenLoad(s: Suite, content: ObjectContent, deps: seq<Digest>, expiry: Option<Timestamp>,
                     blockSize: nat, pubkey: Key, secret: Key, st: Store)
    requires s.Sound() && Filed(st)
    requires blockSize + Sizes.HEADER < Sizes.USIZE_LIMIT
    ensures var o := New(s, content, deps, expiry, blockSize, pubkey, secret);
            var after := Save(st, o.blocks, {});
            && Filed(after)
            && var r := Load(s, after, o.Id(), o.Key());
               && (r.Ok? <==> |deps| <= 8 || Contains(after, DepListOf(s, deps, blockSize, pubkey, secret)))
               && (r.Ok? ==> Alike(r.value.blocks, o.blocks) && r.value.deps == deps && Content(s, r.value) == Ok(content))
  {
    hide NewBlocks, Walk, MakeDeps, Load, Save, Alike, DepListOf;
    Sizes.ValidValueSizeFits(blockSize);
    var o := New(s, content, deps, expiry, blockSize, pubkey, secret);
    var valid := Sizes.ValidValueSize(blockSize);
    var convKey := s.convergenceKey(pubkey, secret);
    NewCoherent(s, s.encode(content), |deps|, MakeDeps(s, deps, valid, convKey), expiry, valid, convKey);
    SaveHolds(st, o.blocks, {});
    RoundTrips(s, content, deps, expiry, blockSize, pubkey, secret, Save(st, o.blocks, {}));
  }

  /** A concrete loss: a one-block object with nine or more deps, saved to an empty store, does not load. */
  lemma DepListLost(s: Suite, content: ObjectContent, deps: seq<Digest>, expiry: Option<Timestamp>,
                    blockSize: nat, pubkey: Key, secret: Key)
    requires s.Sound() && |deps| > 8
    requires blockSize + Sizes.HEADER < Sizes.USIZE_LIMIT
    requires |New(s, content, deps, expiry, blockSize, pubkey, secret).blocks| == 1
    ensures var o := New(s, content, deps, expiry, blockSize, pubkey, secret);
            var after := Save(map[], o.blocks, {});
            && Filed(after)
            && Load(s, after, o.Id(), o.Key()).Err?
  {
    hide NewBlocks, Walk, Load, Save, Alike, DepListBlocks;
    var o := New(s, content, deps, expiry, blockSize, pubkey, secret);
    var valid := Sizes.ValidValueSize(blockSize);
    Sizes.ValidValueSizeFits(blockSize);
    var convKey := s.convergenceKey(pubkey, secret);
    var rootDeps := MakeDeps(s, deps, valid, convKey);
    var list := DepListBlocks(s, deps, valid, convKey);
    SaveThenLoad(s, content, deps, expiry, blockSize, pubkey, secret, map[]);
    NewCoherent(s, s.encode(content), |deps|, rootDeps, expiry, valid, convKey);
    NewRootDeps(s, s.encode(content), |deps|, rootDeps, expiry, valid, convKey);
    SaveHolds(map[], o.blocks, {});
    var after := Save(map[], o.blocks, {});
    var listRoot := list[|list| - 1].Id();
    assert o.blocks[0].Coherent();
    assert o.Id() == o.blocks[0].Hash();
    assert o.Id().deps == DepListRef(ObjectRef(listRoot, list[|list| - 1].key.value));
    NotItself(o.Id());
    assert Ids(o.blocks) == [o.Id()];
    assert listRoot !in after;
  }

  /** No digest refers to itself as its dep list. */
  lemma NotItself(id: Digest)
    requires id.Merkle? && id.deps.DepListRef?
    ensures id.deps.ref.id != id
  {
    assert id.deps.ref.id < id.deps.ref < id.deps < id;
  }
}
