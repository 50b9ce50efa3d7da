// Reading back what was built: an object's content and deps survive chunking,
// encryption, the tree, storing and loading.

module RoundTrip {
  import opened Types
  import opened Objects
  import Bare
  import Sizes

  // ----- Walking down a tree that make_tree built -----

  function RefsOf(bs: seq<Block>): (r: Refs)
    requires Keyed(bs)
    ensures |r| == |bs|
  {
    seq(|bs|, i requires 0 <= i < |bs| => (bs[i].Id(), bs[i].key.value))
  }

  /** A parent opens, with its own key, to the references of the blocks below it. */
  lemma OpenParent(p: TreeParams, nodes: seq<Block>, deps: ObjectDeps)
    requires Keyed(nodes)
    ensures var b := Parent(p, nodes, deps);
            OpenBlock(p.suite, b, b.Id(), b.key.value) == Ok(Level(RefsOf(nodes), [], []))
  {
    var b := Parent(p, nodes, deps);
    var plain := Bare.Serialize(InternalNode(Keys(nodes)));
    p.suite.CryptInvolutive(b.key.value, plain);
    Bare.ContentRoundTrip(InternalNode(Keys(nodes)));
    assert Zip(Ids(nodes), Keys(nodes)) == RefsOf(nodes);
  }

  lemma RefsConcat(a: seq<Block>, b: seq<Block>)
    requires Keyed(a) && Keyed(b)
    ensures Keyed(a + b) && RefsOf(a + b) == RefsOf(a) + RefsOf(b)
  {
  }

  lemma OpenCons(s: Suite, blocks: seq<Block>, refs: Refs, index: nat, head: Level, tail: Level)
    requires refs != [] && index + |refs| <= |blocks|
    requires OpenBlock(s, blocks[index], refs[0].0, refs[0].1) == Ok(head)
    requires OpenLevel(s, blocks, refs[1..], index + 1) == Ok(tail)
    ensures OpenLevel(s, blocks, refs, index) == Ok(Join(head, tail))
  {
    hide OpenBlock;
  }

  /** A whole level opens to the references of the level below it. */
  lemma {:induction false} OpenParentLevel(p: TreeParams, nodes: seq<Block>, first: bool, blocks: seq<Block>, index: nat)
    requires p.arity >= 2 && Keyed(nodes)
    requires var level := ParentLevel(p, nodes, first);
             index + |level| <= |blocks| && blocks[index..index + |level|] == level
    ensures OpenLevel(p.suite, blocks, RefsOf(ParentLevel(p, nodes, first)), index)
         == Ok(Level(RefsOf(nodes), [], []))
    decreases |nodes|
  {
    hide Parent, OpenBlock, OpenLevel;
    if nodes == [] {
      assert RefsOf([]) == [];
      OpenNothing(p.suite, blocks, index);
    } else {
      hide ParentLevel;
      var n := RunOf(nodes, p.arity);
      var deps := if first && n == |nodes| then p.rootDeps else NO_DEPS;
      var head, above := Parent(p, nodes[..n], deps), ParentLevel(p, nodes[n..], false);
      ParentLevelStep(p, nodes, first);
      var level := [head] + above;
      assert blocks[index] == blocks[index..index + |level|][0];
      assert blocks[index + 1..index + 1 + |above|] == blocks[index..index + |level|][1..];
      OpenParent(p, nodes[..n], deps);
      OpenParentLevel(p, nodes[n..], false, blocks, index + 1);
      assert RefsOf(level)[1..] == RefsOf(above);
      OpenCons(p.suite, blocks, RefsOf(level), index, Level(RefsOf(nodes[..n]), [], []), Level(RefsOf(nodes[n..]), [], []));
      assert nodes[..n] + nodes[n..] == nodes;
      RefsConcat(nodes[..n], nodes[n..]);
      assert Join(Level(RefsOf(nodes[..n]), [], []), Level(RefsOf(nodes[n..]), [], [])) == Level(RefsOf(nodes), [], []);
    }
  }

  /** Opening a level of parents moves the walk to the level below. */
  lemma CollectLevelDown(p: TreeParams, nodes: seq<Block>, pre: seq<Block>, blocks: seq<Block>)
    requires p.arity >= 2 && Keyed(nodes) && nodes != []
    requires var level := ParentLevel(p, nodes, true); pre + nodes + level <= blocks
    ensures var level := ParentLevel(p, nodes, true);
            Collect(p.suite, blocks, RefsOf(level), |pre| + |nodes|) == Collect(p.suite, blocks, RefsOf(nodes), |pre|)
  {
    hide ParentLevel, OpenLevel, Tree;
    var level := ParentLevel(p, nodes, true);
    var index := |pre| + |nodes|;
    assert level != [] by { TreeTop(p, nodes); }
    assert blocks[index..index + |level|] == level;
    OpenParentLevel(p, nodes, true, blocks, index);
    var below := Collect(p.suite, blocks, RefsOf(nodes), |pre|);
    if below.Ok? {
      assert [] + below.value.leaves == below.value.leaves && [] + below.value.content == below.value.content;
    }
  }

  /** Walking from the root of a tree is walking from the blocks it was built on. */
  lemma {:induction false} CollectTree(p: TreeParams, nodes: seq<Block>, pre: seq<Block>, blocks: seq<Block>)
    requires p.arity >= 2 && Keyed(nodes) && nodes != []
    requires blocks == pre + nodes + Tree(p, nodes)
    ensures var root := blocks[|blocks| - 1];
            root.key.Some?
            && Collect(p.suite, blocks, [(root.Id(), root.key.value)], |blocks| - 1)
            == Collect(p.suite, blocks, RefsOf(nodes), |pre|)
    decreases |nodes|
  {
    hide Collect, ParentLevel;
    var level := ParentLevel(p, nodes, true);
    TreeTop(p, nodes);
    CollectLevelDown(p, nodes, pre, blocks);
    if 1 < |level| {
      ParentLevelShrinks(p, nodes);
      assert blocks == (pre + nodes) + level + Tree(p, level);
      CollectTree(p, level, pre + nodes, blocks);
    } else {
      var root := blocks[|blocks| - 1];
      assert root == level[0];
      assert RefsOf(level) == [(root.Id(), root.key.value)];
    }
  }

  /** A tree starts with the level above its nodes; a one-block level is the whole of it. */
  lemma TreeTop(p: TreeParams, nodes: seq<Block>)
    requires p.arity >= 2 && Keyed(nodes) && nodes != []
    ensures var level := ParentLevel(p, nodes, true);
            && level != []
            && Tree(p, nodes) == level + (if 1 < |level| then Tree(p, level) else [])
  {
  }

  // ----- The leaves -----

  function Flatten(chunks: seq<seq<byte>>): seq<byte> {
    if chunks == [] then [] else chunks[0] + Flatten(chunks[1..])
  }

  /** No piece is empty or too long, and all but the last are full. */
  lemma {:induction false} ChunkBounds(bytes: seq<byte>, size: nat)
    requires size > 0
    ensures forall i :: 0 <= i < |Chunks(bytes, size)| ==> 0 < |Chunks(bytes, size)[i]| <= size
    ensures forall i :: 0 <= i < |Chunks(bytes, size)| - 1 ==> |Chunks(bytes, size)[i]| == size
    decreases |bytes|
  {
    if size < |bytes| {
      ChunkBounds(bytes[size..], size);
    }
  }

  /** The pieces put together are what was cut. */
  lemma {:induction false} ChunksFlatten(bytes: seq<byte>, size: nat)
    requires size > 0
    ensures Flatten(Chunks(bytes, size)) == bytes
    decreases |bytes|
  {
    if bytes != [] && size < |bytes| {
      ChunksFlatten(bytes[size..], size);
      var rest := Chunks(bytes[size..], size);
      assert ([bytes[..size]] + rest)[1..] == rest;
    } else if bytes != [] {
      assert [bytes][1..] == [];
      assert bytes + [] == bytes;
    }
  }

  /** Blocks that open, each with its own key, to the given chunks. */
  ghost predicate LeafList(s: Suite, leaves: seq<Block>, chunks: seq<seq<byte>>) {
    && |leaves| == |chunks|
    && forall i :: 0 <= i < |leaves| ==> OpensTo(s, leaves[i], chunks[i])
  }

  ghost predicate OpensTo(s: Suite, leaf: Block, chunk: seq<byte>) {
    Opens(s, leaf) && ChunkOf(s, leaf) == chunk
  }

  lemma DataBlockOpens(s: Suite, convKey: Key, chunk: seq<byte>, deps: ObjectDeps, expiry: Option<Timestamp>)
    ensures OpensTo(s, MakeBlock(s, convKey, Bare.Serialize(DataChunk(chunk)), [], deps, expiry), chunk)
  {
    var plain := Bare.Serialize(DataChunk(chunk));
    s.CryptInvolutive(s.keyedHash(convKey, plain), plain);
    Bare.ContentRoundTrip(DataChunk(chunk));
  }

  lemma {:induction false} LeavesOpen(s: Suite, convKey: Key, expiry: Option<Timestamp>, chunks: seq<seq<byte>>)
    ensures LeafList(s, Leaves(s, convKey, expiry, chunks), chunks)
  {
    if chunks != [] {
      DataBlockOpens(s, convKey, chunks[0], NO_DEPS, expiry);
      LeavesOpen(s, convKey, expiry, chunks[1..]);
      var leaves := Leaves(s, convKey, expiry, chunks);
      forall i | 0 <= i < |leaves|
        ensures OpensTo(s, leaves[i], chunks[i])
      {
        if i > 0 {
          assert leaves[i] == Leaves(s, convKey, expiry, chunks[1..])[i - 1] && chunks[i] == chunks[1..][i - 1];
        }
      }
    }
  }

  lemma {:induction false} OpenLeaves(s: Suite, leaves: seq<Block>, chunks: seq<seq<byte>>, blocks: seq<Block>, index: nat)
    requires LeafList(s, leaves, chunks) && Keyed(leaves)
    requires index + |leaves| <= |blocks| && blocks[index..index + |leaves|] == leaves
    ensures OpenLevel(s, blocks, RefsOf(leaves), index) == Ok(Level([], leaves, Flatten(chunks)))
    decreases |leaves|
  {
    if leaves != [] {
      var slice := blocks[index..index + |leaves|];
      assert blocks[index] == slice[0] && blocks[index + 1..index + |leaves|] == slice[1..];
      assert RefsOf(leaves)[1..] == RefsOf(leaves[1..]);
      assert OpensTo(s, leaves[0], chunks[0]);
      assert LeafList(s, leaves[1..], chunks[1..]);
      OpenLeaves(s, leaves[1..], chunks[1..], blocks, index + 1);
      hide LeafList, OpensTo;
      assert OpenBlock(s, leaves[0], leaves[0].Id(), leaves[0].key.value) == Ok(Level([], [leaves[0]], chunks[0]));
      assert Join(Level([], [leaves[0]], chunks[0]), Level([], leaves[1..], Flatten(chunks[1..])))
          == Level([], leaves, Flatten(chunks));
    }
  }

  lemma CollectLeafLevel(s: Suite, leaves: seq<Block>, chunks: seq<seq<byte>>, blocks: seq<Block>)
    requires LeafList(s, leaves, chunks) && Keyed(leaves) && leaves <= blocks
    ensures Collect(s, blocks, RefsOf(leaves), 0) == Ok(Yield(leaves, Flatten(chunks)))
  {
    hide OpenLevel;
    OpenLeaves(s, leaves, chunks, blocks, 0);
  }

  /** An object laid out as leaves and the tree over them yields exactly the leaves. */
  lemma WalkTree(p: TreeParams, leaves: seq<Block>, chunks: seq<seq<byte>>, o: Object)
    requires p.arity >= 2 && leaves != [] && Keyed(leaves) && LeafList(p.suite, leaves, chunks)
    requires o.blocks == leaves + Tree(p, leaves)
    ensures o.Key().Some?
    ensures Walk(p.suite, o, o.Key().value) == Ok(Yield(leaves, Flatten(chunks)))
  {
    hide Collect, OpenLevel, Tree, ParentLevel;
    assert o.blocks == [] + leaves + Tree(p, leaves);
    CollectTree(p, leaves, [], o.blocks);
    CollectLeafLevel(p.suite, leaves, chunks, o.blocks);
  }

  lemma WalkSingle(s: Suite, bytes: seq<byte>, rootDeps: ObjectDeps, expiry: Option<Timestamp>, convKey: Key, o: Object)
    requires o.blocks == [MakeBlock(s, convKey, Bare.Serialize(DataChunk(bytes)), [], rootDeps, expiry)]
    ensures o.Key().Some? && Walk(s, o, o.Key().value) == Ok(Yield(o.blocks, bytes))
  {
    hide Collect, OpenLevel;
    DataBlockOpens(s, convKey, bytes, rootDeps, expiry);
    assert LeafList(s, o.blocks, [bytes]);
    CollectLeafLevel(s, o.blocks, [bytes], o.blocks);
    hide LeafList, Bare.Serialize;
    assert RefsOf(o.blocks) == [(o.Id(), o.Key().value)];
    assert Flatten([bytes]) == bytes + Flatten([bytes][1..]);
    assert [bytes][1..] == [] && bytes + [] == bytes;
  }

  /** The leaves of a new object: its one block, or one for each chunk. */
  function NewLeaves(s: Suite, o: Object, bytes: seq<byte>, depCount: nat, expiry: Option<Timestamp>, validSize: nat, convKey: Key): seq<Block>
    requires Sizes.MIN_SIZE <= validSize
  {
    if SingleBlock(bytes, depCount, validSize) then o.blocks
    else Leaves(s, convKey, expiry, Chunks(bytes, ChunkSize(validSize)))
  }

  /** The blocks `Object::new` lays out yield the serialized content. */
  lemma WalkNew(s: Suite, bytes: seq<byte>, depCount: nat, rootDeps: ObjectDeps,
                expiry: Option<Timestamp>, validSize: nat, convKey: Key, o: Object)
    requires Sizes.MIN_SIZE <= validSize && bytes != []
    requires o.blocks == NewBlocks(s, bytes, depCount, rootDeps, expiry, validSize, convKey)
    ensures o.Key().Some?
    ensures Walk(s, o, o.Key().value) == Ok(Yield(NewLeaves(s, o, bytes, depCount, expiry, validSize, convKey), bytes))
  {
    hide Collect, OpenLevel, Tree, ParentLevel, Leaves, Walk;
    if SingleBlock(bytes, depCount, validSize) {
      WalkSingle(s, bytes, rootDeps, expiry, convKey, o);
    } else {
      var chunks := Chunks(bytes, ChunkSize(validSize));
      ChunksFlatten(bytes, ChunkSize(validSize));
      LeavesOpen(s, convKey, expiry, chunks);
      var p := TreeParams(s, convKey, rootDeps, expiry, Sizes.Arity(validSize));
      WalkTree(p, Leaves(s, convKey, expiry, chunks), chunks, o);
    }
  }
}
