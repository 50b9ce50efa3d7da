// The shape of the trees make_tree builds, and the size of every block of an object.

module TreeShape {
  import opened Types
  import opened Objects
  import opened RoundTrip
  import opened Storing
  import Bare
  import Sizes

  // ----- Arithmetic of rounding up -----

  function Power(a: nat, e: nat): nat {
    if e == 0 then 1 else a * Power(a, e - 1)
  }

  lemma {:induction false} PowerPositive(a: nat, e: nat)
    requires a >= 1
    ensures Power(a, e) >= 1
  {
    if e > 0 {
      PowerPositive(a, e - 1);
      Sizes.MulMonotone(1, a, Power(a, e - 1));
    }
  }

  /** `c` is `n / d` rounded up when `n` lies in the last `d` numbers up to `c * d`. */
  ghost predicate RoundsUp(n: nat, d: nat, c: nat) {
    n <= c * d && (n == 0 ==> c == 0) && (n > 0 ==> c > 0 && (c - 1) * d < n)
  }

  lemma CeilDivRoundsUp(n: nat, d: nat)
    requires d > 0
    ensures RoundsUp(n, d, Sizes.CeilDiv(n, d))
  {
    var c, r := (n + d - 1) / d, (n + d - 1) % d;
    assert n + d - 1 == c * d + r;
    if n > 0 {
      assert c > 0 by { Sizes.QuotientAtLeast(n + d - 1, d, 1); }
      assert (c - 1) * d == c * d - d;
    } else {
      Sizes.CeilDivStep(0, d);
    }
  }

  lemma RoundsUpUnique(n: nat, d: nat, b: nat, c: nat)
    requires d > 0 && RoundsUp(n, d, b) && RoundsUp(n, d, c)
    ensures b == c
  {
    if b < c {
      Sizes.MulMonotone(b, c - 1, d);
      assert false;
    } else if c < b {
      Sizes.MulMonotone(c, b - 1, d);
      assert false;
    }
  }

  lemma MulRegroup(x: nat, b: nat, a: nat)
    ensures x * b * a == x * (a * b)
  {
  }

  lemma RoundsUpTwice(n: nat, a: nat, b: nat, c1: nat, c2: nat)
    requires a > 0 && b > 0 && RoundsUp(n, a, c1) && RoundsUp(c1, b, c2)
    ensures RoundsUp(n, a * b, c2)
  {
    Sizes.MulMonotone(c1, c2 * b, a);
    MulRegroup(c2, b, a);
    if n > 0 {
      Sizes.MulMonotone((c2 - 1) * b, c1 - 1, a);
      MulRegroup(c2 - 1, b, a);
    }
  }

  /** Rounding up twice is rounding up once by the product. */
  lemma CeilDivTwice(n: nat, a: nat, b: nat)
    requires a > 0 && b > 0
    ensures a * b > 0 && Sizes.CeilDiv(Sizes.CeilDiv(n, a), b) == Sizes.CeilDiv(n, a * b)
  {
    hide Sizes.CeilDiv, RoundsUp;
    Sizes.MulMonotone(1, a, b);
    var c1 := Sizes.CeilDiv(n, a);
    var c2 := Sizes.CeilDiv(c1, b);
    CeilDivRoundsUp(n, a);
    CeilDivRoundsUp(c1, b);
    RoundsUpTwice(n, a, b, c1, c2);
    CeilDivRoundsUp(n, a * b);
    RoundsUpUnique(n, a * b, c2, Sizes.CeilDiv(n, a * b));
  }

  // ----- Levels -----

  /** The tree over `nodes`, level by level from the lowest. */
  function TreeLevels(p: TreeParams, nodes: seq<Block>): (r: seq<seq<Block>>)
    requires p.arity >= 2 && Keyed(nodes) && nodes != []
    ensures r != []
    decreases |nodes|
  {
    var level := ParentLevel(p, nodes, true);
    TreeTop(p, nodes);
    if 1 < |level| then
      ParentLevelShrinks(p, nodes);
      [level] + TreeLevels(p, level)
    else [level]
  }

  function Concat(levels: seq<seq<Block>>): seq<Block> {
    if levels == [] then [] else levels[0] + Concat(levels[1..])
  }

  lemma {:induction false} LevelDeps(p: TreeParams, nodes: seq<Block>, first: bool)
    requires p.arity >= 2 && Keyed(nodes)
    ensures var level := ParentLevel(p, nodes, first);
            forall i :: 0 <= i < |level| ==>
              level[i].deps == if first && |level| == 1 then p.rootDeps else NO_DEPS
    decreases |nodes|
  {
    hide Parent;
    if nodes != [] {
      var n := RunOf(nodes, p.arity);
      var deps := if first && n == |nodes| then p.rootDeps else NO_DEPS;
      ParentLevelStep(p, nodes, first);
      ParentFields(p, nodes[..n], deps);
      LevelDeps(p, nodes[n..], false);
      if n < |nodes| {
        TreeTop(p, nodes[n..]);
        ParentLevelSize(p, nodes[n..], false);
        Sizes.CeilDivStep(|nodes[n..]|, p.arity);
        assert ParentLevel(p, nodes[n..], false) != [];
      }
    }
  }

  /** Every parent but the last has as many children as the arity allows. */
  ghost predicate FullRuns(level: seq<Block>, arity: nat) {
    && (forall i :: 0 <= i < |level| ==> 0 < |level[i].children| <= arity)
    && (forall i :: 0 <= i < |level| - 1 ==> |level[i].children| == arity)
  }

  lemma {:induction false} LevelRuns(p: TreeParams, nodes: seq<Block>, first: bool)
    requires p.arity >= 2 && Keyed(nodes)
    ensures FullRuns(ParentLevel(p, nodes, first), p.arity)
    decreases |nodes|
  {
    hide Parent;
    if nodes != [] {
      var n := RunOf(nodes, p.arity);
      var deps := if first && n == |nodes| then p.rootDeps else NO_DEPS;
      ParentLevelStep(p, nodes, first);
      ParentFields(p, nodes[..n], deps);
      LevelRuns(p, nodes[n..], false);
      var level, rest := ParentLevel(p, nodes, first), ParentLevel(p, nodes[n..], false);
      assert n < |nodes| ==> n == p.arity;
      assert n == |nodes| ==> rest == [];
      hide ParentLevel;
      forall i | 0 < i < |level|
        ensures level[i] == rest[i - 1]
      {
      }
    }
  }

  /** What a level is over the one below it (`nodes` below the first). */
  ghost predicate LevelOver(p: TreeParams, nodes: seq<Block>, levels: seq<seq<Block>>, j: nat)
    requires p.arity >= 1 && j < |levels|
  {
    && Children(levels[j]) == Ids(if j == 0 then nodes else levels[j - 1])
    && |levels[j]| == CeilDivPower(|nodes|, p.arity, j + 1) && FullRuns(levels[j], p.arity)
    && (j < |levels| - 1 <==> 1 < |levels[j]|)
    && (forall i :: 0 <= i < |levels[j]| ==>
          levels[j][i].deps == if j == |levels| - 1 then p.rootDeps else NO_DEPS)
  }

  function CeilDivPower(n: nat, a: nat, e: nat): nat
    requires a >= 1
  {
    PowerPositive(a, e);
    Sizes.CeilDiv(n, Power(a, e))
  }

  lemma CeilDivPowerOne(n: nat, a: nat)
    requires a >= 1
    ensures CeilDivPower(n, a, 1) == Sizes.CeilDiv(n, a)
  {
    assert Power(a, 1) == a * Power(a, 0) == a;
  }

  lemma CeilDivPowerStep(n: nat, a: nat, e: nat)
    requires a >= 1
    ensures CeilDivPower(Sizes.CeilDiv(n, a), a, e) == CeilDivPower(n, a, e + 1)
  {
    PowerPositive(a, e);
    CeilDivTwice(n, a, Power(a, e));
  }

  /** Counting the levels from one further down. */
  lemma LevelShift(p: TreeParams, nodes: seq<Block>, level: seq<Block>, upper: seq<seq<Block>>, j: nat)
    requires p.arity >= 1 && 0 < j <= |upper| && LevelOver(p, level, upper, j - 1)
    requires |level| == Sizes.CeilDiv(|nodes|, p.arity)
    ensures LevelOver(p, nodes, [level] + upper, j)
  {
    hide CeilDivPower;
    var levels := [level] + upper;
    CeilDivPowerStep(|nodes|, p.arity, j);
    assert levels[j] == upper[j - 1];
    assert j > 1 ==> levels[j - 1] == upper[j - 2];
  }

  /** The lowest level. */
  lemma LowestLevel(p: TreeParams, nodes: seq<Block>, upper: seq<seq<Block>>)
    requires p.arity >= 2 && Keyed(nodes) && nodes != []
    requires 1 < |ParentLevel(p, nodes, true)| <==> upper != []
    ensures LevelOver(p, nodes, [ParentLevel(p, nodes, true)] + upper, 0)
  {
    ParentLevelSize(p, nodes, true);
    ChildrenOfLevel(p, nodes, true);
    LevelRuns(p, nodes, true);
    LevelDeps(p, nodes, true);
    TreeTop(p, nodes);
    CeilDivPowerOne(|nodes|, p.arity);
    hide ParentLevel, Tree, CeilDivPower, Sizes.CeilDiv;
    var level := ParentLevel(p, nodes, true);
    assert ([level] + upper)[0] == level;
  }

  /**
   * `make_tree` builds levels of ceil(n/a), ceil(n/a^2), ... blocks, each the
   * parents of the whole level below in order, all but the last of `a` children,
   * up to the first of one block: the root, which alone carries the deps.
   */
  lemma {:induction false} Levels(p: TreeParams, nodes: seq<Block>)
    requires p.arity >= 2 && Keyed(nodes) && nodes != []
    ensures Tree(p, nodes) == Concat(TreeLevels(p, nodes))
    ensures var levels := TreeLevels(p, nodes);
            forall j: nat :: j < |levels| ==> LevelOver(p, nodes, levels, j)
    decreases |nodes|
  {
    var level := ParentLevel(p, nodes, true);
    var levels := TreeLevels(p, nodes);
    TreeTop(p, nodes);
    ParentLevelSize(p, nodes, true);
    hide ParentLevel, Tree, Sizes.CeilDiv, LevelOver;
    if 1 < |level| {
      ParentLevelShrinks(p, nodes);
      Levels(p, level);
      var upper := TreeLevels(p, level);
      assert levels[1..] == upper;
      forall j: nat | j < |levels|
        ensures LevelOver(p, nodes, levels, j)
      {
        if j > 0 {
          assert LevelOver(p, level, upper, j - 1);
          LevelShift(p, nodes, level, upper, j);
        } else {
          LowestLevel(p, nodes, upper);
        }
      }
    } else {
      assert levels == [level] + [] && levels[1..] == [];
      assert level + [] == level;
      LowestLevel(p, nodes, []);
    }
  }

  /** The height of the tree is the logarithm of the number of leaves, rounded up. */
  lemma TreeHeight(p: TreeParams, nodes: seq<Block>)
    requires p.arity >= 2 && Keyed(nodes) && |nodes| >= 2
    ensures var h := |TreeLevels(p, nodes)|;
            Power(p.arity, h - 1) < |nodes| <= Power(p.arity, h)
  {
    hide TreeLevels, Tree;
    Levels(p, nodes);
    var levels := TreeLevels(p, nodes);
    var h := |levels|;
    assert LevelOver(p, nodes, levels, h - 1);
    TreeTopSize(p, nodes, levels);
    PowerPositive(p.arity, h);
    CeilDivRoundsUp(|nodes|, Power(p.arity, h));
    if h > 1 {
      assert LevelOver(p, nodes, levels, h - 2);
      PowerPositive(p.arity, h - 1);
      CeilDivRoundsUp(|nodes|, Power(p.arity, h - 1));
      Sizes.MulMonotone(1, |levels[h - 2]| - 1, Power(p.arity, h - 1));
    }
  }

  /** The last level is one block. */
  lemma TreeTopSize(p: TreeParams, nodes: seq<Block>, levels: seq<seq<Block>>)
    requires p.arity >= 2 && nodes != [] && levels != []
    requires LevelOver(p, nodes, levels, |levels| - 1)
    ensures |levels[|levels| - 1]| == 1
  {
    var h := |levels|;
    PowerPositive(p.arity, h);
    CeilDivRoundsUp(|nodes|, Power(p.arity, h));
  }

  // ----- Block sizes -----

  ghost predicate AllFit(bs: seq<Block>, size: nat) {
    forall i :: 0 <= i < |bs| ==> Bare.BlockSize(bs[i]) <= size
  }

  /** However digests are hashed, the blocks serialize to at most `size` bytes each. */
  ghost predicate AllSerializeWithin(bs: seq<Block>, size: nat) {
    forall i, h: Bare.Hash :: 0 <= i < |bs| ==> |Bare.SerializeBlock(h, bs[i])| <= size
  }

  lemma FitsSerialized(bs: seq<Block>, size: nat)
    requires AllFit(bs, size)
    ensures AllSerializeWithin(bs, size)
  {
    hide Bare.BlockSize, Bare.SerializeBlock;
    forall i, h: Bare.Hash | 0 <= i < |bs|
      ensures |Bare.SerializeBlock(h, bs[i])| <= size
    {
      assert |Bare.SerializeBlock(h, bs[i])| == Bare.BlockSize(bs[i]);
    }
  }

  /** At most eight ids, or a reference. */
  predicate ShortDeps(d: ObjectDeps) {
    d.ObjectIdList? ==> |d.ids| <= 8
  }

  lemma ParentFits(p: TreeParams, nodes: seq<Block>, deps: ObjectDeps, size: nat)
    requires Keyed(nodes) && ShortDeps(deps)
    requires Sizes.MIN_SIZE <= size <= Sizes.MAX_VALUE_SIZE && |nodes| <= Sizes.Arity(size)
    ensures Bare.BlockSize(Parent(p, nodes, deps)) <= size
  {
    Bare.ContentSize(InternalNode(Keys(nodes)));
    var k := |nodes|;
    assert 66 * k <= size - 282;
    Bare.VarUintSmall(k);
    Bare.VarUintSmall(1 + Bare.VarUintSize(k) + 33 * k);
  }

  lemma {:induction false} LevelFits(p: TreeParams, nodes: seq<Block>, first: bool, size: nat)
    requires p.arity >= 2 && Keyed(nodes) && ShortDeps(p.rootDeps)
    requires Sizes.MIN_SIZE <= size <= Sizes.MAX_VALUE_SIZE && p.arity == Sizes.Arity(size)
    ensures AllFit(ParentLevel(p, nodes, first), size)
    decreases |nodes|
  {
    hide Parent, Bare.BlockSize;
    if nodes != [] {
      var n := RunOf(nodes, p.arity);
      var deps := if first && n == |nodes| then p.rootDeps else NO_DEPS;
      ParentLevelStep(p, nodes, first);
      hide ParentLevel;
      ParentFits(p, nodes[..n], deps, size);
      LevelFits(p, nodes[n..], false, size);
    }
  }

  lemma {:induction false} TreeFits(p: TreeParams, nodes: seq<Block>, size: nat)
    requires p.arity >= 2 && Keyed(nodes) && nodes != [] && ShortDeps(p.rootDeps)
    requires Sizes.MIN_SIZE <= size <= Sizes.MAX_VALUE_SIZE && p.arity == Sizes.Arity(size)
    ensures AllFit(Tree(p, nodes), size)
    decreases |nodes|
  {
    hide ParentLevel, Bare.BlockSize;
    var level := ParentLevel(p, nodes, true);
    TreeTop(p, nodes);
    LevelFits(p, nodes, true, size);
    if 1 < |level| {
      ParentLevelShrinks(p, nodes);
      TreeFits(p, level, size);
    }
  }

  lemma DataBlockFits(s: Suite, convKey: Key, chunk: seq<byte>, deps: ObjectDeps, expiry: Option<Timestamp>, size: nat)
    requires size <= Sizes.MAX_VALUE_SIZE
    requires |chunk| + Sizes.EMPTY_BLOCK_SIZE + Sizes.DATA_VARINT_EXTRA + (Bare.DepsSize(deps) - 2) <= size
    ensures Bare.BlockSize(MakeBlock(s, convKey, Bare.Serialize(DataChunk(chunk)), [], deps, expiry)) <= size
  {
    Bare.ContentSize(DataChunk(chunk));
    Bare.VarUintSmall(|chunk|);
    Bare.VarUintSmall(1 + Bare.VarUintSize(|chunk|) + |chunk|);
  }

  lemma {:induction false} LeavesFit(s: Suite, convKey: Key, expiry: Option<Timestamp>, chunks: seq<seq<byte>>, size: nat)
    requires Sizes.MIN_SIZE <= size <= Sizes.MAX_VALUE_SIZE
    requires forall i :: 0 <= i < |chunks| ==> |chunks[i]| <= ChunkSize(size)
    ensures AllFit(Leaves(s, convKey, expiry, chunks), size)
  {
    hide Bare.BlockSize, MakeBlock;
    if chunks != [] {
      DataBlockFits(s, convKey, chunks[0], NO_DEPS, expiry, size);
      LeavesFit(s, convKey, expiry, chunks[1..], size);
    }
  }

  /**
   * Every block of a new object, leaf, internal node or root, with a dep list
   * or a reference to one, serializes to at most the valid block size.
   */
  lemma NewFits(s: Suite, content: ObjectContent, deps: seq<Digest>, expiry: Option<Timestamp>,
                blockSize: nat, pubkey: Key, secret: Key)
    requires s.Sound() && blockSize + Sizes.HEADER < Sizes.USIZE_LIMIT
    ensures var o := New(s, content, deps, expiry, blockSize, pubkey, secret);
            var size := Sizes.ValidValueSize(blockSize);
            0 <= size <= Sizes.MAX_VALUE_SIZE && AllFit(o.blocks, size) && AllSerializeWithin(o.blocks, size)
  {
    hide Leaves, Tree, Bare.BlockSize;
    Sizes.ValidValueSizeFits(blockSize);
    Sizes.ArityRange(blockSize);
    var size := Sizes.ValidValueSize(blockSize);
    var convKey := s.convergenceKey(pubkey, secret);
    var rootDeps := MakeDeps(s, deps, size, convKey);
    var bytes := s.encode(content);
    if SingleBlock(bytes, |deps|, size) {
      Bare.VarUintSmall(8);
      assert |deps| <= 8 ==> Bare.VarUintSize(|deps|) == 1;
      DataBlockFits(s, convKey, bytes, rootDeps, expiry, size);
    } else {
      var chunks := Chunks(bytes, ChunkSize(size));
      ChunkBounds(bytes, ChunkSize(size));
      LeavesFit(s, convKey, expiry, chunks, size);
      TreeFits(TreeParams(s, convKey, rootDeps, expiry, Sizes.Arity(size)), Leaves(s, convKey, expiry, chunks), size);
    }
    FitsSerialized(New(s, content, deps, expiry, blockSize, pubkey, secret).blocks, size);
  }

  // ----- Copies -----

  /** What a block's size does not depend on: its own id and key, and which time it expires at. */
  lemma SameBlockSize(a: Block, b: Block)
    requires a.children == b.children && a.deps == b.deps && a.content == b.content && a.expiry.Some? == b.expiry.Some?
    ensures Bare.BlockSize(a) == Bare.BlockSize(b)
  {
  }

  /** The leaves with another expiry are as big as leaves made with it. */
  lemma ExpiredLeavesFit(s: Suite, convKey: Key, expiry: Option<Timestamp>, other: Option<Timestamp>, chunks: seq<seq<byte>>, size: nat)
    requires AllFit(Leaves(s, convKey, other, chunks), size)
    ensures AllFit(Expire(Leaves(s, convKey, expiry, chunks), other), size)
  {
    hide Bare.BlockSize, Leaves;
    var copies, made := Expire(Leaves(s, convKey, expiry, chunks), other), Leaves(s, convKey, other, chunks);
    forall i | 0 <= i < |copies|
      ensures Bare.BlockSize(copies[i]) == Bare.BlockSize(made[i])
    {
      LeafOfChunk(s, convKey, expiry, chunks, i);
      LeafOfChunk(s, convKey, other, chunks, i);
      SameBlockSize(copies[i], made[i]);
    }
  }

  lemma {:induction false} LeafOfChunk(s: Suite, convKey: Key, expiry: Option<Timestamp>, chunks: seq<seq<byte>>, i: nat)
    requires i < |chunks|
    ensures Leaves(s, convKey, expiry, chunks)[i]
            == MakeBlock(s, convKey, Bare.Serialize(DataChunk(chunks[i])), [], NO_DEPS, expiry)
  {
    hide MakeBlock, Bare.Serialize;
    if i > 0 {
      LeafOfChunk(s, convKey, expiry, chunks[1..], i - 1);
    }
  }

  /** If the copied leaves fit a valid size, so does the tree over them, whose arity is got from the first. */
  lemma CopyBlocksFit(s: Suite, leaves: seq<Block>, rootDeps: ObjectDeps, expiry: Option<Timestamp>, convKey: Key, blockSize: nat)
    requires leaves != [] && Keyed(leaves) && ShortDeps(rootDeps)
    requires blockSize + Sizes.HEADER < Sizes.USIZE_LIMIT && |leaves[0].content| + Sizes.HEADER < Sizes.USIZE_LIMIT
    requires Sizes.ValidValueSize(blockSize) >= 0 && AllFit(Expire(leaves, expiry), Sizes.ValidValueSize(blockSize))
    ensures AllFit(CopyBlocks(s, leaves, rootDeps, expiry, convKey), Sizes.ValidValueSize(blockSize))
  {
    var size := Sizes.ValidValueSize(blockSize);
    var copies := Expire(leaves, expiry);
    var smaller := Sizes.ValidValueSize(|leaves[0].content|);
    assert |copies[0].content| <= Bare.BlockSize(copies[0]) <= size;
    hide Tree, Bare.BlockSize, Sizes.ValidValueSize;
    Sizes.ValidValueSizeFits(blockSize);
    Sizes.ValidValueSizeFits(|leaves[0].content|);
    Sizes.ValidValueSizeMonotone(|leaves[0].content|, size);
    Sizes.ArityRange(|leaves[0].content|);
    TreeFits(TreeParams(s, convKey, rootDeps, expiry, Sizes.Arity(smaller)), copies, smaller);
  }

  /** The leaves of a new object fit with any expiry. */
  lemma NewLeavesFit(s: Suite, bytes: seq<byte>, deps: seq<Digest>, rootDeps: ObjectDeps, expiry: Option<Timestamp>,
                     size: nat, convKey: Key, o: Object, other: Option<Timestamp>)
    requires Sizes.MIN_SIZE <= size <= Sizes.MAX_VALUE_SIZE && bytes != []
    requires if |deps| <= 8 then rootDeps == ObjectIdList(deps) else rootDeps.DepListRef?
    requires o.blocks == NewBlocks(s, bytes, |deps|, rootDeps, expiry, size, convKey)
    ensures AllFit(Expire(NewLeaves(s, o, bytes, |deps|, expiry, size, convKey), other), size)
  {
    hide Bare.BlockSize, Leaves, Tree, MakeBlock;
    if SingleBlock(bytes, |deps|, size) {
      Bare.VarUintSmall(8);
      assert |deps| <= 8 ==> Bare.VarUintSize(|deps|) == 1;
      DataBlockFits(s, convKey, bytes, rootDeps, other, size);
      SingleSize(s, convKey, bytes, rootDeps, expiry, other);
    } else {
      var chunks := Chunks(bytes, ChunkSize(size));
      ChunkBounds(bytes, ChunkSize(size));
      LeavesFit(s, convKey, other, chunks, size);
      ExpiredLeavesFit(s, convKey, expiry, other, chunks, size);
    }
  }

  lemma SingleSize(s: Suite, convKey: Key, bytes: seq<byte>, deps: ObjectDeps, expiry: Option<Timestamp>, other: Option<Timestamp>)
    ensures var plain := Bare.Serialize(DataChunk(bytes));
            Bare.BlockSize(MakeBlock(s, convKey, plain, [], deps, expiry).WithExpiry(other))
            == Bare.BlockSize(MakeBlock(s, convKey, plain, [], deps, other))
  {
    hide Bare.BlockSize;
    var plain := Bare.Serialize(DataChunk(bytes));
    SameBlockSize(MakeBlock(s, convKey, plain, [], deps, expiry).WithExpiry(other), MakeBlock(s, convKey, plain, [], deps, other));
  }

  lemma FitsInMemory(bs: seq<Block>, size: nat)
    requires AllFit(bs, size) && size <= Sizes.MAX_VALUE_SIZE
    ensures InMemory(bs)
  {
    forall b | b in bs
      ensures |b.content| <= size
    {
      var i :| 0 <= i < |bs| && bs[i] == b;
      assert |b.content| <= Bare.BlockSize(bs[i]);
    }
  }

  /**
   * Every block of a copy of a new object serializes to at most the valid block
   * size of the original, whatever the new expiry: the expiry is longer by four
   * bytes, and the room for them is always there.
   */
  lemma CopyFits(s: Suite, content: ObjectContent, deps: seq<Digest>, expiry: Option<Timestamp>, blockSize: nat,
                 pubkey: Key, secret: Key, newExpiry: Option<Timestamp>, newPubkey: Key, newSecret: Key)
    requires s.Sound() && blockSize + Sizes.HEADER < Sizes.USIZE_LIMIT
    ensures var o := New(s, content, deps, expiry, blockSize, pubkey, secret);
            InMemory(o.blocks)
            && var c := Copy(s, o, newExpiry, newPubkey, newSecret);
               var size := Sizes.ValidValueSize(blockSize);
               c.Copied? && 0 <= size <= Sizes.MAX_VALUE_SIZE
               && AllFit(c.copy.blocks, size) && AllSerializeWithin(c.copy.blocks, size)
  {
    hide Bare.BlockSize, NewBlocks, Walk, MakeDeps, CopyBlocks, NewLeaves, Sizes.ValidValueSize;
    NewFits(s, content, deps, expiry, blockSize, pubkey, secret);
    Sizes.ValidValueSizeFits(blockSize);
    var o := New(s, content, deps, expiry, blockSize, pubkey, secret);
    var size := Sizes.ValidValueSize(blockSize);
    FitsInMemory(o.blocks, size);
    var convKey := s.convergenceKey(pubkey, secret);
    var rootDeps := MakeDeps(s, deps, size, convKey);
    var bytes := s.encode(content);
    WalkNew(s, bytes, |deps|, rootDeps, expiry, size, convKey, o);
    NewRootDeps(s, bytes, |deps|, rootDeps, expiry, size, convKey);
    MadeDeps(s, deps, size, convKey);
    NewLeavesFit(s, bytes, deps, rootDeps, expiry, size, convKey, o, newExpiry);
    var leaves := NewLeaves(s, o, bytes, |deps|, expiry, size, convKey);
    SomeLeaves(s, o, bytes, |deps|, expiry, size, convKey);
    assert InMemory(leaves) && Keyed(leaves) by { LeavesInMemory(s, o, leaves); }
    assert leaves[0] in leaves;
    CopyBlocksFit(s, leaves, rootDeps, newExpiry, s.convergenceKey(newPubkey, newSecret), blockSize);
    FitsSerialized(Copy(s, o, newExpiry, newPubkey, newSecret).copy.blocks, size);
  }

  lemma MadeDeps(s: Suite, deps: seq<Digest>, size: nat, convKey: Key)
    requires Sizes.MIN_SIZE <= size <= Sizes.MAX_VALUE_SIZE && s.encode(DepListObject(deps)) != []
    ensures var made := MakeDeps(s, deps, size, convKey);
            if |deps| <= 8 then made == ObjectIdList(deps) else made.DepListRef?
  {
    hide DepListBlocks;
  }

  lemma SomeLeaves(s: Suite, o: Object, bytes: seq<byte>, depCount: nat, expiry: Option<Timestamp>, size: nat, convKey: Key)
    requires Sizes.MIN_SIZE <= size && bytes != [] && o.blocks != []
    ensures NewLeaves(s, o, bytes, depCount, expiry, size, convKey) != []
  {
    var chunks := Chunks(bytes, ChunkSize(size));
    assert chunks != [];
    hide Chunks;
  }

  lemma LeavesInMemory(s: Suite, o: Object, leaves: seq<Block>)
    requires o.blocks != [] && InMemory(o.blocks) && o.Key().Some?
    requires var w := Walk(s, o, o.Key().value); w.Ok? && w.value.leaves == leaves
    ensures InMemory(leaves) && Keyed(leaves)
  {
    hide Collect;
    CollectedLeaves(s, o.blocks, [(o.Id(), o.Key().value)], |o.blocks| - 1);
    LeafSizes(s, o.blocks, leaves);
  }
}
