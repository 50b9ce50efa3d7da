// Objects as Merkle trees of encrypted blocks: what building, storing, loading
// and reading one computes.

module Objects {
  import opened Types
  import Bare
  import Sizes

  datatype Object = Object(blocks: seq<Block>, deps: seq<Digest>) {
    function Root(): Block
      requires blocks != []
    {
      blocks[|blocks| - 1]
    }

    function Id(): Digest
      requires blocks != []
    {
      Root().Id()
    }

    function Key(): Option<Key>
      requires blocks != []
    {
      Root().key
    }
  }

  datatype ParseError =
    | MissingBlocks(ids: seq<Digest>)
    | MissingRootKey
    | InvalidBlockId
    | InvalidChildren
    | InvalidKeys
    | InvalidDeps
    | BlockDeserializeError
    | ObjectDeserializeError

  // ----- Building -----

  /** `make_block`: convergent encryption, the key being a keyed hash of the plain text. */
  function MakeBlock(s: Suite, convKey: Key, plain: seq<byte>, children: seq<Digest>,
                     deps: ObjectDeps, expiry: Option<Timestamp>): Block {
    var key := s.keyedHash(convKey, plain);
    NewBlock(children, deps, expiry, s.Crypt(key, plain), Some(key))
  }

  function Ids(bs: seq<Block>): (r: seq<Digest>)
    ensures |r| == |bs|
  {
    seq(|bs|, i requires 0 <= i < |bs| => bs[i].Id())
  }

  predicate Keyed(bs: seq<Block>) {
    forall b <- bs :: b.key.Some?
  }

  function Keys(bs: seq<Block>): (r: seq<Key>)
    requires Keyed(bs)
    ensures |r| == |bs|
  {
    seq(|bs|, i requires 0 <= i < |bs| => bs[i].key.value)
  }

  /** What a whole tree level shares: everything `make_tree` is passed besides the level below. */
  datatype TreeParams = TreeParams(
    suite: Suite, convKey: Key, rootDeps: ObjectDeps, expiry: Option<Timestamp>, arity: nat)

  /** The internal node over a run of at most `arity` blocks. */
  function Parent(p: TreeParams, nodes: seq<Block>, deps: ObjectDeps): Block
    requires Keyed(nodes)
  {
    MakeBlock(p.suite, p.convKey, Bare.Serialize(InternalNode(Keys(nodes))), Ids(nodes), deps, p.expiry)
  }

  /** The level above `nodes`. Its only block carries the root's deps if there is only one. */
  function ParentLevel(p: TreeParams, nodes: seq<Block>, first: bool): (r: seq<Block>)
    requires p.arity >= 1 && Keyed(nodes)
    ensures Keyed(r)
  {
    if nodes == [] then []
    else if |nodes| <= p.arity then [Parent(p, nodes, if first then p.rootDeps else NO_DEPS)]
    else [Parent(p, nodes[..p.arity], NO_DEPS)] + ParentLevel(p, nodes[p.arity..], false)
  }

  function RunOf<T>(rest: seq<T>, size: nat): (n: nat)
    ensures n <= |rest| && (size > 0 && rest != [] ==> n > 0)
  {
    if |rest| < size then |rest| else size
  }

  /** The next parent, and what is left of the level after it. */
  lemma ParentLevelStep(p: TreeParams, rest: seq<Block>, first: bool)
    requires p.arity >= 2 && Keyed(rest) && rest != []
    ensures var n := RunOf(rest, p.arity);
            var deps := if first && n == |rest| then p.rootDeps else NO_DEPS;
            ParentLevel(p, rest, first) == [Parent(p, rest[..n], deps)] + ParentLevel(p, rest[n..], false)
  {
    if |rest| <= p.arity {
      assert rest[..|rest|] == rest;
    }
  }

  lemma {:induction false} ParentLevelSize(p: TreeParams, nodes: seq<Block>, first: bool)
    requires p.arity >= 1 && Keyed(nodes)
    ensures |ParentLevel(p, nodes, first)| == Sizes.CeilDiv(|nodes|, p.arity)
  {
    Sizes.CeilDivStep(|nodes|, p.arity);
    if |nodes| > p.arity {
      ParentLevelSize(p, nodes[p.arity..], false);
    }
  }

  lemma ParentLevelShrinks(p: TreeParams, nodes: seq<Block>)
    requires p.arity >= 2 && Keyed(nodes) && |ParentLevel(p, nodes, true)| > 1
    ensures |ParentLevel(p, nodes, true)| < |nodes|
  {
    ParentLevelSize(p, nodes, true);
    Sizes.CeilDivSmaller(|nodes|, p.arity);
  }

  /** `make_tree`: every level above `nodes`, up to the root. */
  function Tree(p: TreeParams, nodes: seq<Block>): (r: seq<Block>)
    requires p.arity >= 2 && Keyed(nodes)
    ensures Keyed(r)
    ensures nodes != [] ==> r != []
    decreases |nodes|
  {
    var level := ParentLevel(p, nodes, true);
    if 1 < |level| then
      ParentLevelShrinks(p, nodes);
      level + Tree(p, level)
    else level
  }

  function Chunks(bytes: seq<byte>, size: nat): seq<seq<byte>>
    requires size > 0
  {
    if bytes == [] then []
    else if |bytes| <= size then [bytes]
    else [bytes[..size]] + Chunks(bytes[size..], size)
  }

  /** The leaf blocks over a list of content pieces. */
  function Leaves(s: Suite, convKey: Key, expiry: Option<Timestamp>, chunks: seq<seq<byte>>): (r: seq<Block>)
    ensures Keyed(r) && |r| == |chunks|
  {
    if chunks == [] then []
    else [MakeBlock(s, convKey, Bare.Serialize(DataChunk(chunks[0])), [], NO_DEPS, expiry)]
         + Leaves(s, convKey, expiry, chunks[1..])
  }

  /** Whether the content fits in the root block. */
  predicate SingleBlock(bytes: seq<byte>, depCount: nat, validSize: nat) {
    Sizes.EMPTY_BLOCK_SIZE + Sizes.DATA_VARINT_EXTRA + Sizes.BLOCK_ID_SIZE * depCount + |bytes| <= validSize
  }

  function ChunkSize(validSize: nat): nat
    requires Sizes.MIN_SIZE <= validSize
  {
    validSize - Sizes.EMPTY_BLOCK_SIZE - Sizes.DATA_VARINT_EXTRA
  }

  /** The blocks `Object::new` lays out, given the serialized content and the root's deps. */
  function NewBlocks(s: Suite, bytes: seq<byte>, depCount: nat, rootDeps: ObjectDeps,
                     expiry: Option<Timestamp>, validSize: nat, convKey: Key): (r: seq<Block>)
    requires Sizes.MIN_SIZE <= validSize && bytes != []
    ensures r != [] && Keyed(r)
  {
    if SingleBlock(bytes, depCount, validSize) then
      [MakeBlock(s, convKey, Bare.Serialize(DataChunk(bytes)), [], rootDeps, expiry)]
    else
      var chunks := Chunks(bytes, ChunkSize(validSize));
      var leaves := Leaves(s, convKey, expiry, chunks);
      leaves + Tree(TreeParams(s, convKey, rootDeps, expiry, Sizes.Arity(validSize)), leaves)
  }

  /** The dep-list object `make_deps` builds when there are more than eight deps. */
  function DepListBlocks(s: Suite, deps: seq<Digest>, validSize: nat, convKey: Key): (r: seq<Block>)
    requires Sizes.MIN_SIZE <= validSize <= Sizes.MAX_VALUE_SIZE
    requires s.encode(DepListObject(deps)) != []
    ensures r != [] && Keyed(r)
  {
    Sizes.ValidValueSizeFits(validSize);
    NewBlocks(s, s.encode(DepListObject(deps)), 0, ObjectIdList([]), None, Sizes.ValidValueSize(validSize), convKey)
  }

  /** `make_deps`. The dep-list object is built for its reference only: nothing keeps its blocks. */
  function MakeDeps(s: Suite, deps: seq<Digest>, validSize: nat, convKey: Key): ObjectDeps
    requires Sizes.MIN_SIZE <= validSize <= Sizes.MAX_VALUE_SIZE
    requires s.encode(DepListObject(deps)) != []
  {
    if |deps| <= 8 then ObjectIdList(deps)
    else
      var root := Object(DepListBlocks(s, deps, validSize, convKey), []).Root();
      DepListRef(ObjectRef(root.Id(), root.key.value))
  }

  /** `Object::new`. */
  function New(s: Suite, content: ObjectContent, deps: seq<Digest>, expiry: Option<Timestamp>,
               blockSize: nat, pubkey: Key, secret: Key): (o: Object)
    requires s.encode(content) != [] && s.encode(DepListObject(deps)) != []
    requires blockSize + Sizes.HEADER < Sizes.USIZE_LIMIT
    ensures o.blocks != [] && Keyed(o.blocks) && o.deps == deps
  {
    Sizes.ValidValueSizeFits(blockSize);
    var valid := Sizes.ValidValueSize(blockSize);
    var convKey := s.convergenceKey(pubkey, secret);
    var rootDeps := MakeDeps(s, deps, valid, convKey);
    Object(NewBlocks(s, s.encode(content), |deps|, rootDeps, expiry, valid, convKey), deps)
  }

  // ----- Stores -----

  /** The blocks a store answers `get` with. */
  type Store = map<Digest, Block>

  /** Every block is filed under its hash, which is also what it calls its id. */
  ghost predicate Filed(st: Store) {
    forall id :: id in st ==> st[id].Hash() == id && st[id].Coherent()
  }

  /** `HashMapRepoStore::put`, which drops the key. */
  function Put(st: Store, b: Block): Store {
    st[b.Id() := b.(key := None)]
  }

  /** `Object::save`: one put for each id, that of its first block. */
  function Save(st: Store, blocks: seq<Block>, done: set<Digest>): Store
    decreases |blocks|
  {
    if blocks == [] then st
    else if blocks[0].Id() in done then Save(st, blocks[1..], done)
    else Save(Put(st, blocks[0]), blocks[1..], done + {blocks[0].Id()})
  }

  // ----- Loading -----

  /** The stored ones among `ids`, in order and with repetitions. */
  function Found(st: Store, ids: seq<Digest>): seq<Block> {
    if ids == [] then []
    else (if ids[0] in st then [st[ids[0]]] else []) + Found(st, ids[1..])
  }

  /** The ones among `ids` that the store lacks. */
  function Absent(st: Store, ids: seq<Digest>): seq<Digest> {
    if ids == [] then []
    else (if ids[0] in st then [] else [ids[0]]) + Absent(st, ids[1..])
  }

  function Children(bs: seq<Block>): seq<Digest> {
    if bs == [] then [] else bs[0].children + Children(bs[1..])
  }

  /** The level below `ids`, as far as it is stored. */
  function Below(st: Store, ids: seq<Digest>): seq<Digest> {
    Children(Found(st, ids))
  }

  lemma {:induction false} BelowIsLower(st: Store, ids: seq<Digest>)
    requires Filed(st)
    ensures Below(st, ids) != [] ==> MaxHeight(Below(st, ids)) < MaxHeight(ids)
    ensures MaxHeight(Below(st, ids)) <= MaxHeight(ids)
  {
    if ids != [] {
      BelowIsLower(st, ids[1..]);
      if ids[0] in st {
        var b := st[ids[0]];
        assert Height(b.Hash()) == 1 + MaxHeight(b.children);
        assert Found(st, ids) == [b] + Found(st, ids[1..]);
        assert Found(st, ids)[1..] == Found(st, ids[1..]);
        MaxHeightConcat(b.children, Below(st, ids[1..]));
      } else {
        assert Found(st, ids) == Found(st, ids[1..]);
      }
    }
  }

  /**
   * The block list `load_tree` builds for a level: the deeper levels, then this
   * one. Shared subtrees are repeated.
   */
  function Layout(st: Store, ids: seq<Digest>): seq<Block>
    requires Filed(st)
    decreases MaxHeight(ids)
  {
    BelowIsLower(st, ids);
    var below := Below(st, ids);
    (if below == [] then [] else Layout(st, below)) + Found(st, ids)
  }

  /** The ids `load_tree` misses, level by level from the top, each level right to left. */
  function Missing(st: Store, ids: seq<Digest>): seq<Digest>
    requires Filed(st)
    decreases MaxHeight(ids)
  {
    BelowIsLower(st, ids);
    var below := Below(st, ids);
    Reverse(Absent(st, ids)) + if below == [] then [] else Missing(st, below)
  }

  function Reverse<T>(s: seq<T>): seq<T> {
    if s == [] then [] else Reverse(s[1..]) + [s[0]]
  }

  lemma OneId(st: Store, id: Digest)
    ensures Found(st, [id]) == if id in st then [st[id]] else []
    ensures Absent(st, [id]) == if id in st then [] else [id]
    ensures Reverse([id]) == [id]
  {
    assert [id][1..] == [];
  }

  lemma LayoutEndsWith(st: Store, id: Digest)
    requires Filed(st) && id in st
    ensures var l := Layout(st, [id]); l != [] && l[|l| - 1] == st[id]
  {
    OneId(st, id);
  }

  lemma MissingRoot(st: Store, id: Digest)
    requires Filed(st) && id !in st
    ensures Missing(st, [id]) == [id]
  {
    OneId(st, id);
    assert Below(st, [id]) == [];
  }

  /** `Object::load`. Following dep-list references ends: a reference is part of the id it hangs off. */
  function Load(s: Suite, st: Store, id: Digest, key: Option<Key>): (r: Result<Object, ParseError>)
    requires Filed(st)
    ensures r.Ok? ==> r.value.blocks != []
    decreases id, 0
  {
    var missing := Missing(st, [id]);
    if missing != [] then Err(MissingBlocks(missing))
    else
      assert id in st by { if id !in st { MissingRoot(st, id); } }
      LayoutEndsWith(st, id);
      assert st[id].Hash() == id;
      match LoadDeps(s, st, st[id].deps)
      case Err(e) => Err(e)
      case Ok(deps) => Ok(Object(WithRootKey(Layout(st, [id]), key), deps))
  }

  /** The deps a root block names, directly or through a dep-list object. */
  function LoadDeps(s: Suite, st: Store, deps: ObjectDeps): Result<seq<Digest>, ParseError>
    requires Filed(st)
    decreases deps, 1
  {
    match deps
    case ObjectIdList(ids) => Ok(ids)
    case DepListRef(ref) =>
      match Load(s, st, ref.id, Some(ref.key))
      case Err(e) => Err(e)
      case Ok(list) =>
        match Content(s, list)
        case Err(e) => Err(e)
        case Ok(DepListObject(ids)) => Ok(ids)
        case Ok(_) => Err(InvalidDeps)
  }

  function WithRootKey(blocks: seq<Block>, key: Option<Key>): (r: seq<Block>)
    requires blocks != []
    ensures |r| == |blocks|
  {
    var last := |blocks| - 1;
    if key.Some? then blocks[last := blocks[last].(key := key)] else blocks
  }

  /** An object of one block that lists its deps. */
  lemma OneBlockLoads(s: Suite, st: Store, b: Block, key: Option<Key>)
    requires Filed(st) && b.Id() in st && st[b.Id()] == b && b.children == [] && b.deps.ObjectIdList?
    ensures Load(s, st, b.Id(), key) == Ok(Object([if key.Some? then b.(key := key) else b], b.deps.ids))
  {
    var id := b.Id();
    OneId(st, id);
    assert [b][1..] == [];
    assert Children([b]) == [];
    assert Below(st, [id]) == [];
    assert Layout(st, [id]) == [b] && Missing(st, [id]) == [];
    assert WithRootKey([b], key) == [if key.Some? then b.(key := key) else b];
  }

  // ----- Reading -----

  type Refs = seq<(Digest, Key)>

  /** What one level of the walk yields: the level below, and the leaves met with their content. */
  datatype Level = Level(below: Refs, leaves: seq<Block>, content: seq<byte>)

  /** One block of the walk: reached under `id`, opened with `key`. */
  function OpenBlock(s: Suite, b: Block, id: Digest, key: Key): Result<Level, ParseError> {
    if id != b.Id() then Err(InvalidBlockId)
    else
      match Bare.Deserialize(s.Crypt(key, b.content))
      case None => Err(BlockDeserializeError)
      case Some(InternalNode(keys)) =>
        if |keys| != |b.children| then Err(InvalidKeys)
        else Ok(Level(Zip(b.children, keys), [], []))
      case Some(DataChunk(chunk)) => Ok(Level([], [b.(key := Some(key))], chunk))
  }

  function Zip(ids: seq<Digest>, keys: seq<Key>): (r: Refs)
    requires |ids| == |keys|
    ensures |r| == |ids|
  {
    seq(|ids|, i requires 0 <= i < |ids| => (ids[i], keys[i]))
  }

  function Join(a: Level, b: Level): Level {
    Level(a.below + b.below, a.leaves + b.leaves, a.content + b.content)
  }

  /** The parents of one level occupy `blocks` from `index` on; the first error wins. */
  function OpenLevel(s: Suite, blocks: seq<Block>, parents: Refs, index: nat): Result<Level, ParseError>
    requires index + |parents| <= |blocks|
    decreases |parents|
  {
    if parents == [] then Ok(Level([], [], []))
    else
      match OpenBlock(s, blocks[index], parents[0].0, parents[0].1)
      case Err(e) => Err(e)
      case Ok(head) =>
        match OpenLevel(s, blocks, parents[1..], index + 1)
        case Err(e) => Err(e)
        case Ok(tail) => Ok(Join(head, tail))
  }

  lemma OpenNothing(s: Suite, blocks: seq<Block>, index: nat)
    requires index <= |blocks|
    ensures OpenLevel(s, blocks, [], index) == Ok(Level([], [], []))
  {
  }

  /** The leaves and the content of a tree: `collect_leaves` with both sinks present. */
  datatype Yield = Yield(leaves: seq<Block>, content: seq<byte>)

  /** `collect_leaves`: the level below is expected just before the current one. */
  function Collect(s: Suite, blocks: seq<Block>, parents: Refs, index: nat): Result<Yield, ParseError>
    requires index + |parents| <= |blocks|
    decreases index
  {
    match OpenLevel(s, blocks, parents, index)
    case Err(e) => Err(e)
    case Ok(Level(below, leaves, content)) =>
      if below == [] then Ok(Yield(leaves, content))
      else if index < |below| then Err(InvalidChildren)
      else
        match Collect(s, blocks, below, index - |below|)
        case Err(e) => Err(e)
        case Ok(y) => Ok(Yield(leaves + y.leaves, content + y.content))
  }

  /** The walk from the root, given its key. */
  function Walk(s: Suite, o: Object, key: Key): Result<Yield, ParseError>
    requires o.blocks != []
  {
    Collect(s, o.blocks, [(o.Id(), key)], |o.blocks| - 1)
  }

  /** `Object::content`. */
  function Content(s: Suite, o: Object): Result<ObjectContent, ParseError>
    requires o.blocks != []
  {
    match o.Key()
    case None => Err(MissingRootKey)
    case Some(key) =>
      match Walk(s, o, key)
      case Err(e) => Err(e)
      case Ok(y) =>
        match s.decode(y.content)
        case None => Err(ObjectDeserializeError)
        case Some(c) => Ok(c)
  }

  // ----- Copying -----

  datatype CopyOutcome = Copied(copy: Object) | CopyParseError | CopyPanic

  function Expire(leaves: seq<Block>, expiry: Option<Timestamp>): (r: seq<Block>)
    ensures |r| == |leaves|
    ensures forall i :: 0 <= i < |r| ==> r[i] == leaves[i].WithExpiry(expiry)
  {
    seq(|leaves|, i requires 0 <= i < |leaves| => leaves[i].WithExpiry(expiry))
  }

  /** The blocks of a copy, given the leaves of the original. */
  function CopyBlocks(s: Suite, leaves: seq<Block>, rootDeps: ObjectDeps,
                      expiry: Option<Timestamp>, convKey: Key): (r: seq<Block>)
    requires leaves != [] && Keyed(leaves)
    requires |leaves[0].content| + Sizes.HEADER < Sizes.USIZE_LIMIT
    ensures r != [] && Keyed(r)
  {
    Sizes.ArityRange(|leaves[0].content|);
    var arity := Sizes.Arity(Sizes.ValidValueSize(|leaves[0].content|));
    var copies := Expire(leaves, expiry);
    copies + Tree(TreeParams(s, convKey, rootDeps, expiry, arity), copies)
  }

  /** `Object::copy`. It unwraps the root key and the first leaf. */
  function Copy(s: Suite, o: Object, expiry: Option<Timestamp>, pubkey: Key, secret: Key): CopyOutcome
    requires o.blocks != [] && InMemory(o.blocks)
  {
    match o.Key()
    case None => CopyPanic
    case Some(key) =>
      match Walk(s, o, key)
      case Err(_) => CopyParseError
      case Ok(Yield(leaves, _)) =>
        if leaves == [] then CopyPanic
        else
          CollectedLeaves(s, o.blocks, [(o.Id(), key)], |o.blocks| - 1);
          LeafSizes(s, o.blocks, leaves);
          Copied(Object(CopyBlocks(s, leaves, o.Root().deps, expiry, s.convergenceKey(pubkey, secret)), o.deps))
  }

  /** Adding the header to a content length does not overflow. */
  predicate InMemory(bs: seq<Block>) {
    forall b <- bs :: |b.content| + Sizes.HEADER < Sizes.USIZE_LIMIT
  }

  lemma LeafSizes(s: Suite, blocks: seq<Block>, leaves: seq<Block>)
    requires InMemory(blocks) && AllLeaves(s, blocks, leaves)
    ensures InMemory(leaves) && Keyed(leaves)
  {
  }

  /** The block's own key opens it, to a data chunk. */
  predicate Opens(s: Suite, leaf: Block) {
    leaf.key.Some?
    && var content := Bare.Deserialize(s.Crypt(leaf.key.value, leaf.content));
       content.Some? && content.value.DataChunk?
  }

  function ChunkOf(s: Suite, leaf: Block): seq<byte>
    requires Opens(s, leaf)
  {
    Bare.Deserialize(s.Crypt(leaf.key.value, leaf.content)).value.chunk
  }

  /** Every collected leaf is one of the blocks, with a key set that opens it. */
  predicate LeafOf(s: Suite, blocks: seq<Block>, leaf: Block) {
    Opens(s, leaf) && exists b <- blocks :: leaf == b.(key := leaf.key)
  }

  predicate AllLeaves(s: Suite, blocks: seq<Block>, leaves: seq<Block>) {
    forall i :: 0 <= i < |leaves| ==> LeafOf(s, blocks, leaves[i])
  }

  lemma AllLeavesConcat(s: Suite, blocks: seq<Block>, a: seq<Block>, b: seq<Block>)
    requires AllLeaves(s, blocks, a) && AllLeaves(s, blocks, b)
    ensures AllLeaves(s, blocks, a + b)
  {
    hide LeafOf;
  }

  lemma {:induction false} LevelLeaves(s: Suite, blocks: seq<Block>, parents: Refs, index: nat)
    requires index + |parents| <= |blocks|
    ensures var r := OpenLevel(s, blocks, parents, index);
            r.Ok? ==> AllLeaves(s, blocks, r.value.leaves)
    decreases |parents|
  {
    if parents != [] {
      LevelLeaves(s, blocks, parents[1..], index + 1);
      assert blocks[index] in blocks;
    }
  }

  lemma {:induction false} CollectedLeaves(s: Suite, blocks: seq<Block>, parents: Refs, index: nat)
    requires index + |parents| <= |blocks|
    ensures var r := Collect(s, blocks, parents, index);
            r.Ok? ==> AllLeaves(s, blocks, r.value.leaves)
    decreases index
  {
    hide OpenLevel, OpenBlock, AllLeaves;
    LevelLeaves(s, blocks, parents, index);
    var r := Collect(s, blocks, parents, index);
    match OpenLevel(s, blocks, parents, index)
    case Err(_) =>
    case Ok(level) =>
      if r.Ok? && level.below != [] {
        CollectedLeaves(s, blocks, level.below, index - |level.below|);
        var y := Collect(s, blocks, level.below, index - |level.below|).value;
        assert r.value.leaves == level.leaves + y.leaves;
        hide Collect, AllLeaves;
        AllLeavesConcat(s, blocks, level.leaves, y.leaves);
      }
  }
}
