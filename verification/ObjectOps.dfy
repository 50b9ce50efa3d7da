// The operations of an object, as the loops and recursive calls that compute them.

module ObjectOps {
  import opened Types
  import opened Objects
  import opened HashStore
  import Bare
  import Sizes

  // ----- Building -----

  /** `make_tree`: parents of runs of `arity` blocks, then the levels above them. */
  method MakeTree(p: TreeParams, leaves: seq<Block>) returns (parents: seq<Block>)
    requires p.arity >= 2 && Keyed(leaves)
    ensures parents == Tree(p, leaves)
    decreases |leaves|
  {
    parents := MakeLevel(p, leaves);
    if 1 < |parents| {
      ParentLevelShrinks(p, leaves);
      var greatParents := MakeTree(p, parents);
      parents := parents + greatParents;
    }
  }

  /** The loop of `make_tree`. */
  method MakeLevel(p: TreeParams, leaves: seq<Block>) returns (parents: seq<Block>)
    requires p.arity >= 2 && Keyed(leaves)
    ensures parents == ParentLevel(p, leaves, true)
  {
    parents := [];
    var rest := leaves;
    while rest != []
      invariant Keyed(rest)
      invariant parents + ParentLevel(p, rest, parents == []) == ParentLevel(p, leaves, true)
      decreases |rest|
    {
      var n := RunOf(rest, p.arity);
      var nodes := rest[..n];
      var content := Bare.Serialize(InternalNode(Keys(nodes)));
      var deps := if parents == [] && n == |rest| then p.rootDeps else NO_DEPS;
      ParentLevelStep(p, rest, parents == []);
      var parent := MakeBlock(p.suite, p.convKey, content, Ids(nodes), deps, p.expiry);
      rest := rest[n..];
      ghost var later := ParentLevel(p, rest, false);
      assert parents + ([parent] + later) == parents + [parent] + later;
      parents := parents + [parent];
    }
    assert parents + [] == parents;
  }

  /** `make_deps`. */
  method MakeObjectDeps(s: Suite, depsVec: seq<Digest>, objectSize: nat, pubkey: Key, secret: Key)
    returns (deps: ObjectDeps)
    requires s.Sound()
    requires Sizes.MIN_SIZE <= objectSize <= Sizes.MAX_VALUE_SIZE
    ensures deps == MakeDeps(s, depsVec, objectSize, s.convergenceKey(pubkey, secret))
    decreases |depsVec|, 0
  {
    if |depsVec| <= 8 {
      deps := ObjectIdList(depsVec);
    } else {
      var list := NewObject(s, DepListObject(depsVec), [], None, objectSize, pubkey, secret);
      deps := DepListRef(ObjectRef(list.Id(), list.Key().value));
    }
  }

  /** `Object::new`. */
  method NewObject(s: Suite, content: ObjectContent, deps: seq<Digest>, expiry: Option<Timestamp>,
                   blockSize: nat, pubkey: Key, secret: Key) returns (o: Object)
    requires s.Sound()
    requires blockSize + Sizes.HEADER < Sizes.USIZE_LIMIT
    ensures o == New(s, content, deps, expiry, blockSize, pubkey, secret)
    decreases |deps|, 1
  {
    hide Tree, Leaves, MakeDeps, Bare.Serialize, Sizes.ValidValueSize;
    Sizes.ValidValueSizeFits(blockSize);
    Sizes.ArityRange(blockSize);
    var valid := Sizes.ValidValueSize(blockSize);
    var chunkSize := valid - Sizes.EMPTY_BLOCK_SIZE - Sizes.DATA_VARINT_EXTRA;
    var convKey := s.convergenceKey(pubkey, secret);
    var objDeps := MakeObjectDeps(s, deps, valid, pubkey, secret);
    var bytes := s.encode(content);
    if Sizes.EMPTY_BLOCK_SIZE + Sizes.DATA_VARINT_EXTRA + Sizes.BLOCK_ID_SIZE * |deps| + |bytes| <= valid {
      o := Object([MakeBlock(s, convKey, Bare.Serialize(DataChunk(bytes)), [], objDeps, expiry)], deps);
    } else {
      var leaves := MakeLeaves(s, convKey, expiry, bytes, chunkSize);
      var parents := MakeTree(TreeParams(s, convKey, objDeps, expiry, Sizes.Arity(valid)), leaves);
      o := Object(leaves + parents, deps);
    }
  }

  lemma ChunksStep(rest: seq<byte>, size: nat)
    requires size > 0 && rest != []
    ensures var n := RunOf(rest, size); Chunks(rest, size) == [rest[..n]] + Chunks(rest[n..], size)
  {
    if |rest| <= size {
      assert rest[..|rest|] == rest;
    }
  }

  /** The loop of `new` over the chunks of the content. */
  method MakeLeaves(s: Suite, convKey: Key, expiry: Option<Timestamp>, bytes: seq<byte>, chunkSize: nat)
    returns (blocks: seq<Block>)
    requires chunkSize > 0
    ensures blocks == Leaves(s, convKey, expiry, Chunks(bytes, chunkSize))
  {
    blocks := [];
    var rest := bytes;
    while rest != []
      invariant blocks + Leaves(s, convKey, expiry, Chunks(rest, chunkSize))
             == Leaves(s, convKey, expiry, Chunks(bytes, chunkSize))
      decreases |rest|
    {
      var n := RunOf(rest, chunkSize);
      ChunksStep(rest, chunkSize);
      ghost var more := Chunks(rest[n..], chunkSize);
      assert ([rest[..n]] + more)[1..] == more;
      var leaf := MakeBlock(s, convKey, Bare.Serialize(DataChunk(rest[..n])), [], NO_DEPS, expiry);
      ghost var later := Leaves(s, convKey, expiry, more);
      assert blocks + ([leaf] + later) == blocks + [leaf] + later;
      blocks := blocks + [leaf];
      rest := rest[n..];
    }
    assert blocks + [] == blocks;
  }

  // ----- Storing -----

  /** `Object::save`, into a hash map store. */
  method SaveObject(o: Object, store: HashMapRepoStore)
    modifies store
    ensures store.blocks == Save(old(store.blocks), o.blocks, {})
  {
    var done: set<Digest> := {};
    var i := 0;
    while i < |o.blocks|
      invariant 0 <= i <= |o.blocks|
      invariant Save(store.blocks, o.blocks[i..], done) == Save(old(store.blocks), o.blocks, {})
    {
      var block := o.blocks[i];
      assert o.blocks[i..][1..] == o.blocks[i + 1..];
      var id := block.Id();
      if id !in done {
        id := store.Put(block);
        done := done + {id};
      }
      i := i + 1;
    }
  }

  // ----- Loading -----

  lemma {:induction false} ReverseConcat<T>(a: seq<T>, b: seq<T>)
    ensures Reverse(a + b) == Reverse(b) + Reverse(a)
  {
    if a == [] {
      assert a + b == b;
    } else {
      assert (a + b)[1..] == a[1..] + b;
      ReverseConcat(a[1..], b);
    }
  }

  lemma {:induction false} ReverseTwice<T>(a: seq<T>)
    ensures Reverse(Reverse(a)) == a
  {
    if a != [] {
      ReverseConcat(Reverse(a[1..]), [a[0]]);
      assert Reverse([a[0]]) == [a[0]];
      ReverseTwice(a[1..]);
    }
  }

  lemma {:induction false} AbsentReversed(st: Store, ids: seq<Digest>)
    ensures Reverse(Absent(st, ids)) == Absent(st, Reverse(ids))
  {
    if ids != [] {
      AbsentReversed(st, ids[1..]);
      AbsentConcat(st, Reverse(ids[1..]), [ids[0]]);
      var rest := Absent(st, ids[1..]);
      assert Absent(st, [ids[0]]) == if ids[0] in st then [] else [ids[0]];
      assert Reverse(rest) + [] == Reverse(rest) && [] + rest == rest;
      assert ([ids[0]] + rest)[1..] == rest;
    }
  }

  lemma {:induction false} AbsentConcat(st: Store, a: seq<Digest>, b: seq<Digest>)
    ensures Absent(st, a + b) == Absent(st, a) + Absent(st, b)
  {
    if a == [] {
      assert a + b == b;
    } else {
      assert (a + b)[1..] == a[1..] + b;
      AbsentConcat(st, a[1..], b);
    }
  }

  lemma ReverseSnoc(ids: seq<Digest>, i: nat)
    requires i < |ids|
    ensures Reverse(ids[..i + 1]) == [ids[i]] + Reverse(ids[..i])
  {
    assert ids[..i + 1] == ids[..i] + [ids[i]];
    ReverseConcat(ids[..i], [ids[i]]);
    assert Reverse([ids[i]]) == [ids[i]];
  }

  lemma ConcatAssociative<T>(a: seq<T>, b: seq<T>, c: seq<T>)
    ensures a + b + c == a + (b + c)
  {
  }

  /** What one more parent adds to a level walked right to left. */
  lemma LevelStep(st: Store, parents: seq<Digest>, i: nat)
    requires i < |parents|
    ensures var id, before, after := parents[i], Reverse(parents[..i]), Reverse(parents[..i + 1]);
            && Found(st, after) == (if id in st then [st[id]] else []) + Found(st, before)
            && Absent(st, parents[..i + 1]) == Absent(st, parents[..i]) + (if id in st then [] else [id])
            && Reverse(Below(st, after)) == Reverse(Below(st, before)) + (if id in st then Reverse(st[id].children) else [])
  {
    var id, before := parents[i], Reverse(parents[..i]);
    ReverseSnoc(parents, i);
    assert ([id] + before)[1..] == before;
    assert parents[..i + 1] == parents[..i] + [id];
    AbsentConcat(st, parents[..i], [id]);
    assert Absent(st, [id]) == if id in st then [] else [id];
    if id in st {
      assert ([st[id]] + Found(st, before))[1..] == Found(st, before);
      ReverseConcat(st[id].children, Below(st, before));
    } else {
      assert [] + Found(st, before) == Found(st, before);
    }
  }

  /** The loop of `load_tree`: a level is walked right to left, every block going to the front of the list. */
  method LoadLevel(parents: seq<Digest>, st: Store, blocksIn: seq<Block>, missingIn: seq<Digest>)
    returns (blocks: seq<Block>, missing: seq<Digest>, children: seq<Digest>)
    ensures blocks == Found(st, Reverse(parents)) + blocksIn
    ensures missing == missingIn + Absent(st, parents)
    ensures children == Reverse(Below(st, Reverse(parents)))
  {
    blocks, missing, children := blocksIn, missingIn, [];
    var i := 0;
    while i < |parents|
      invariant 0 <= i <= |parents|
      invariant blocks == Found(st, Reverse(parents[..i])) + blocksIn
      invariant missing == missingIn + Absent(st, parents[..i])
      invariant children == Reverse(Below(st, Reverse(parents[..i])))
    {
      var id := parents[i];
      LevelStep(st, parents, i);
      if id in st {
        ConcatAssociative([st[id]], Found(st, Reverse(parents[..i])), blocksIn);
        blocks := [st[id]] + blocks;
        children := children + Reverse(st[id].children);
      } else {
        assert [] + Found(st, Reverse(parents[..i])) == Found(st, Reverse(parents[..i]));
        ConcatAssociative(missingIn, Absent(st, parents[..i]), [id]);
        missing := missing + [id];
      }
      i := i + 1;
    }
    assert parents[..i] == parents;
  }

  /** One level, and the recursion on the level below if it is not empty. */
  lemma TreeStep(st: Store, parents: seq<Digest>)
    requires Filed(st)
    ensures var ids, below := Reverse(parents), Below(st, Reverse(parents));
            if below == [] then Layout(st, ids) == Found(st, ids) && Missing(st, ids) == Absent(st, parents)
            else
              && MaxHeight(below) < MaxHeight(ids)
              && Layout(st, ids) == Layout(st, below) + Found(st, ids)
              && Missing(st, ids) == Absent(st, parents) + Missing(st, below)
  {
    var ids := Reverse(parents);
    ReverseTwice(parents);
    AbsentReversed(st, ids);
    BelowIsLower(st, ids);
    assert [] + Found(st, ids) == Found(st, ids);
    assert Absent(st, parents) + [] == Absent(st, parents);
  }

  /** `load_tree`: levels come out left to right, the deepest first. */
  method LoadTree(parents: seq<Digest>, st: Store, blocksIn: seq<Block>, missingIn: seq<Digest>)
    returns (blocks: seq<Block>, missing: seq<Digest>)
    requires Filed(st)
    ensures blocks == Layout(st, Reverse(parents)) + blocksIn
    ensures missing == missingIn + Missing(st, Reverse(parents))
    decreases MaxHeight(Reverse(parents))
  {
    var children;
    blocks, missing, children := LoadLevel(parents, st, blocksIn, missingIn);
    TreeStep(st, parents);
    ReverseTwice(Below(st, Reverse(parents)));
    if children != [] {
      ghost var below := Below(st, Reverse(parents));
      assert Reverse(children) == below;
      ConcatAssociative(Layout(st, below), Found(st, Reverse(parents)), blocksIn);
      ConcatAssociative(missingIn, Absent(st, parents), Missing(st, below));
      blocks, missing := LoadTree(children, st, blocks, missing);
    } else {
      assert Below(st, Reverse(parents)) == [];
    }
  }

  /** `Object::load`. */
  method LoadObject(s: Suite, st: Store, id: Digest, key: Option<Key>) returns (r: Result<Object, ParseError>)
    requires Filed(st)
    ensures r == Load(s, st, id, key)
    decreases id, 0
  {
    var blocks, missing := LoadTree([id], st, [], []);
    OneId(st, id);
    assert blocks == Layout(st, [id]) && missing == Missing(st, [id]);
    if missing != [] {
      return Err(MissingBlocks(missing));
    }
    assert id in st by { if id !in st { MissingRoot(st, id); } }
    LayoutEndsWith(st, id);
    assert st[id].Hash() == id;
    blocks := WithRootKey(blocks, key);
    var deps := LoadObjectDeps(s, st, blocks[|blocks| - 1].deps);
    match deps {
      case Err(e) => r := Err(e);
      case Ok(ids) => r := Ok(Object(blocks, ids));
    }
  }

  /** The end of `Object::load`, where a dep-list reference is followed. */
  method LoadObjectDeps(s: Suite, st: Store, deps: ObjectDeps) returns (r: Result<seq<Digest>, ParseError>)
    requires Filed(st)
    ensures r == LoadDeps(s, st, deps)
    decreases deps, 1
  {
    match deps {
      case ObjectIdList(ids) => r := Ok(ids);
      case DepListRef(ref) =>
        var list := LoadObject(s, st, ref.id, Some(ref.key));
        if list.Err? {
          return Err(list.error);
        }
        var content := ContentOf(s, list.value);
        match content {
          case Err(e) => r := Err(e);
          case Ok(DepListObject(ids)) => r := Ok(ids);
          case Ok(_) => r := Err(InvalidDeps);
        }
    }
  }

  // ----- Reading -----

  /** What a level yields when `seen` precedes it. */
  function After(seen: Level, r: Result<Level, ParseError>): Result<Level, ParseError> {
    match r
    case Err(e) => Err(e)
    case Ok(l) => Ok(Join(seen, l))
  }

  lemma JoinAssociative(a: Level, b: Level, c: Level)
    ensures Join(Join(a, b), c) == Join(a, Join(b, c))
  {
    assert a.below + b.below + c.below == a.below + (b.below + c.below);
    assert a.leaves + b.leaves + c.leaves == a.leaves + (b.leaves + c.leaves);
    assert a.content + b.content + c.content == a.content + (b.content + c.content);
  }

  function Extend<T>(sink: Option<seq<T>>, more: seq<T>): Option<seq<T>> {
    match sink
    case None => None
    case Some(had) => Some(had + more)
  }

  lemma ExtendMore<T>(sink: Option<seq<T>>, a: seq<T>, b: seq<T>)
    ensures Extend(sink, []) == sink
    ensures Extend(Extend(sink, a), b) == Extend(sink, a + b)
  {
    if sink.Some? {
      assert sink.value + [] == sink.value;
      assert sink.value + a + b == sink.value + (a + b);
    }
  }

  /** What one more parent does to the outcome of its level. */
  lemma OpenLevelStep(s: Suite, blocks: seq<Block>, parents: Refs, index: nat, i: nat, seen: Level)
    requires index + |parents| <= |blocks| && i < |parents|
    ensures var here := After(seen, OpenLevel(s, blocks, parents[i..], index + i));
            var head := OpenBlock(s, blocks[index + i], parents[i].0, parents[i].1);
            && (head.Err? ==> here == Err(head.error))
            && (head.Ok? ==> here == After(Join(seen, head.value), OpenLevel(s, blocks, parents[i + 1..], index + i + 1)))
  {
    assert parents[i..][1..] == parents[i + 1..];
    var head := OpenBlock(s, blocks[index + i], parents[i].0, parents[i].1);
    var tail := OpenLevel(s, blocks, parents[i + 1..], index + i + 1);
    if head.Ok? && tail.Ok? {
      JoinAssociative(seen, head.value, tail.value);
    }
  }

  /** The loop of `collect_leaves` over one level; `seen` is what the level has yielded. */
  method CollectLevel(s: Suite, blocks: seq<Block>, parents: Refs, parentIndex: nat,
                      leavesIn: Option<seq<Block>>, contentIn: Option<seq<byte>>)
    returns (error: Option<ParseError>, children: Refs, leaves: Option<seq<Block>>, content: Option<seq<byte>>)
    requires parentIndex + |parents| <= |blocks|
    ensures match OpenLevel(s, blocks, parents, parentIndex)
            case Err(e) => error == Some(e)
            case Ok(l) => error == None && children == l.below
                          && leaves == Extend(leavesIn, l.leaves) && content == Extend(contentIn, l.content)
  {
    hide OpenBlock, OpenLevel;
    error, children, leaves, content := None, [], leavesIn, contentIn;
    ghost var seen := Level([], [], []);
    ghost var whole := OpenLevel(s, blocks, parents, parentIndex);
    ExtendMore(leavesIn, [], []);
    ExtendMore(contentIn, [], []);
    assert whole.Ok? ==> Join(seen, whole.value) == whole.value;
    assert parents[0..] == parents;
    var i := 0;
    while i < |parents|
      invariant 0 <= i <= |parents|
      invariant seen.below == children
      invariant leaves == Extend(leavesIn, seen.leaves) && content == Extend(contentIn, seen.content)
      invariant whole == After(seen, OpenLevel(s, blocks, parents[i..], parentIndex + i))
    {
      var (id, key) := parents[i];
      OpenLevelStep(s, blocks, parents, parentIndex, i, seen);
      match OpenBlock(s, blocks[parentIndex + i], id, key) {
        case Err(e) => return Some(e), children, leaves, content;
        case Ok(head) =>
          ExtendMore(leavesIn, seen.leaves, head.leaves);
          ExtendMore(contentIn, seen.content, head.content);
          children := children + head.below;
          leaves := Extend(leaves, head.leaves);
          content := Extend(content, head.content);
          seen := Join(seen, head);
      }
      i := i + 1;
    }
    assert parents[i..] == [];
    OpenNothing(s, blocks, parentIndex + i);
    assert Join(seen, Level([], [], [])) == seen;
  }

  /** `collect_leaves`, with the two sinks it may be given. */
  method CollectLeaves(s: Suite, blocks: seq<Block>, parents: Refs, parentIndex: nat,
                       leavesIn: Option<seq<Block>>, contentIn: Option<seq<byte>>)
    returns (error: Option<ParseError>, leaves: Option<seq<Block>>, content: Option<seq<byte>>)
    requires parentIndex + |parents| <= |blocks|
    ensures match Collect(s, blocks, parents, parentIndex)
            case Err(e) => error == Some(e)
            case Ok(y) => error == None && leaves == Extend(leavesIn, y.leaves) && content == Extend(contentIn, y.content)
    decreases parentIndex
  {
    hide OpenLevel;
    var children;
    error, children, leaves, content := CollectLevel(s, blocks, parents, parentIndex, leavesIn, contentIn);
    if error == None && children != [] {
      if parentIndex < |children| {
        return Some(InvalidChildren), leaves, content;
      }
      ghost var level := OpenLevel(s, blocks, parents, parentIndex).value;
      ghost var y := Collect(s, blocks, children, parentIndex - |children|);
      if y.Ok? {
        ExtendMore(leavesIn, level.leaves, y.value.leaves);
        ExtendMore(contentIn, level.content, y.value.content);
      }
      error, leaves, content := CollectLeaves(s, blocks, children, parentIndex - |children|, leaves, content);
    }
  }

  /** `Object::leaves`, once the root key is known to be there. */
  method LeavesOf(s: Suite, o: Object, key: Key) returns (r: Result<seq<Block>, ParseError>)
    requires o.blocks != []
    ensures r == match Walk(s, o, key) case Err(e) => Err(e) case Ok(y) => Ok(y.leaves)
  {
    var error, leaves, _ := CollectLeaves(s, o.blocks, [(o.Id(), key)], |o.blocks| - 1, Some([]), None);
    ghost var walk := Walk(s, o, key);
    assert walk.Ok? ==> [] + walk.value.leaves == walk.value.leaves;
    r := match error case Some(e) => Err(e) case None => Ok(leaves.value);
  }

  /** `Object::content`. */
  method ContentOf(s: Suite, o: Object) returns (r: Result<ObjectContent, ParseError>)
    requires o.blocks != []
    ensures r == Content(s, o)
  {
    if o.Key().None? {
      return Err(MissingRootKey);
    }
    var key := o.Key().value;
    var error, _, content := CollectLeaves(s, o.blocks, [(o.Id(), key)], |o.blocks| - 1, None, Some([]));
    ghost var walk := Walk(s, o, key);
    assert walk.Ok? ==> [] + walk.value.content == walk.value.content;
    match error {
      case Some(e) => r := Err(e);
      case None =>
        match s.decode(content.value) {
          case None => r := Err(ObjectDeserializeError);
          case Some(c) => r := Ok(c);
        }
    }
  }

  // ----- Copying -----

  /** `Object::copy`. */
  method CopyObject(s: Suite, o: Object, expiry: Option<Timestamp>, pubkey: Key, secret: Key)
    returns (r: CopyOutcome)
    requires o.blocks != [] && InMemory(o.blocks)
    ensures r == Copy(s, o, expiry, pubkey, secret)
  {
    if o.Key().None? {
      return CopyPanic;
    }
    var key := o.Key().value;
    var leaves := LeavesOf(s, o, key);
    if leaves.Err? {
      return CopyParseError;
    }
    if leaves.value == [] {
      return CopyPanic;
    }
    CollectedLeaves(s, o.blocks, [(o.Id(), key)], |o.blocks| - 1);
    LeafSizes(s, o.blocks, leaves.value);
    hide Collect, AllLeaves, Tree, Expire;
    var size := |leaves.value[0].content|;
    assert leaves.value[0] in leaves.value;
    Sizes.ArityRange(size);
    var blocks := ExpireAll(leaves.value, expiry);
    var arity := Sizes.Arity(Sizes.ValidValueSize(size));
    var p := TreeParams(s, s.convergenceKey(pubkey, secret), o.Root().deps, expiry, arity);
    var parents := MakeTree(p, blocks);
    r := Copied(Object(blocks + parents, o.deps));
  }

  /** The loop of `copy` over the leaves. */
  method ExpireAll(leaves: seq<Block>, expiry: Option<Timestamp>) returns (blocks: seq<Block>)
    ensures blocks == Expire(leaves, expiry)
  {
    blocks := [];
    for i := 0 to |leaves|
      invariant blocks == Expire(leaves[..i], expiry)
    {
      blocks := blocks + [leaves[i].WithExpiry(expiry)];
    }
    assert leaves[..|leaves|] == leaves;
  }
}
