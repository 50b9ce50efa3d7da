// What loading and reading give in each case, errors included.

module Errors {
  import opened Types
  import opened Objects
  import opened Storing
  import Commits
  import Loading
  import Bare
  import Sizes

  // ----- Reading -----

  /** What one block of the walk, reached under an id, makes it fail with, if anything. */
  function BlockError(s: Suite, b: Block, id: Digest, key: Key): Option<ParseError> {
    if b.Id() != id then Some(InvalidBlockId)
    else
      match Bare.Deserialize(s.Crypt(key, b.content))
      case None => Some(BlockDeserializeError)
      case Some(InternalNode(keys)) => if |keys| != |b.children| then Some(InvalidKeys) else None
      case Some(DataChunk(_)) => None
  }

  /** A level fails with what its first failing block fails with. */
  lemma {:induction false} FirstErrorWins(s: Suite, blocks: seq<Block>, parents: Refs, index: nat, k: nat)
    requires index + |parents| <= |blocks| && k < |parents|
    requires forall i :: 0 <= i < k ==> BlockError(s, blocks[index + i], parents[i].0, parents[i].1) == None
    ensures var e := BlockError(s, blocks[index + k], parents[k].0, parents[k].1);
            e.Some? ==> OpenLevel(s, blocks, parents, index) == Err(e.value)
    decreases k
  {
    hide OpenBlock;
    if k == 0 {
      ErrorFails(s, blocks[index], parents[0]);
    } else {
      var rest := parents[1..];
      assert BlockError(s, blocks[index + 0], parents[0].0, parents[0].1) == None;
      forall i | 0 <= i < k - 1
        ensures BlockError(s, blocks[index + 1 + i], rest[i].0, rest[i].1) == None
      {
        assert rest[i] == parents[i + 1];
        assert BlockError(s, blocks[index + (i + 1)], parents[i + 1].0, parents[i + 1].1) == None;
      }
      NoErrorOpens(s, blocks[index], parents[0]);
      hide BlockError, OpenLevel;
      assert rest[k - 1] == parents[k] && index + 1 + (k - 1) == index + k;
      FirstErrorWins(s, blocks, rest, index + 1, k - 1);
      RestFails(s, blocks, parents, index);
    }
  }

  /** Past a block that opens, a level fails as the rest of it does. */
  lemma RestFails(s: Suite, blocks: seq<Block>, parents: Refs, index: nat)
    requires index + |parents| <= |blocks| && parents != [] && OpenBlock(s, blocks[index], parents[0].0, parents[0].1).Ok?
    ensures OpenLevel(s, blocks, parents[1..], index + 1).Err? ==>
              OpenLevel(s, blocks, parents, index) == OpenLevel(s, blocks, parents[1..], index + 1)
  {
    hide OpenBlock;
  }

  lemma ErrorFails(s: Suite, b: Block, ref: (Digest, Key))
    ensures var e := BlockError(s, b, ref.0, ref.1); e.Some? ==> OpenBlock(s, b, ref.0, ref.1) == Err(e.value)
  {
  }

  lemma NoErrorOpens(s: Suite, b: Block, ref: (Digest, Key))
    requires BlockError(s, b, ref.0, ref.1) == None
    ensures OpenBlock(s, b, ref.0, ref.1).Ok?
  {
  }

  /**
   * What the root decides: without its key nothing is read; a root that does not
   * parse, has another number of keys than of children, or more children than
   * there are blocks before it, fails, as does one whose first child is not where
   * it is looked for; a root that holds data has it as the content.
   */
  lemma RootDecides(s: Suite, o: Object)
    requires o.blocks != []
    ensures var root, r, n := o.Root(), Content(s, o), |o.blocks|;
            if root.key.None? then r == Err(MissingRootKey)
            else
              match Bare.Deserialize(s.Crypt(root.key.value, root.content))
              case None => r == Err(BlockDeserializeError)
              case Some(DataChunk(chunk)) => r == (if s.decode(chunk).Some? then Ok(s.decode(chunk).value) else Err(ObjectDeserializeError))
              case Some(InternalNode(keys)) =>
                && (|keys| != |root.children| ==> r == Err(InvalidKeys))
                && (|keys| == |root.children| > n - 1 ==> r == Err(InvalidChildren))
                && (|keys| == |root.children| && 0 < |root.children| < n && o.blocks[n - 1 - |root.children|].Id() != root.children[0]
                    ==> r == Err(InvalidBlockId))
  {
    var root, n := o.Root(), |o.blocks|;
    if root.key.Some? {
      var key := root.key.value;
      var refs: Refs := [(o.Id(), key)];
      assert refs[1..] == [];
      OpenNothing(s, o.blocks, n);
      JoinNothing(OpenBlock(s, root, o.Id(), key));
      assert OpenLevel(s, o.blocks, refs, n - 1) == OpenBlock(s, root, o.Id(), key);
      match Bare.Deserialize(s.Crypt(key, root.content))
      case None =>
      case Some(DataChunk(chunk)) =>
        assert Walk(s, o, key) == Ok(Yield([root.(key := Some(key))], chunk));
      case Some(InternalNode(keys)) =>
        if |keys| == |root.children| && 0 < |root.children| <= n - 1 && o.blocks[n - 1 - |root.children|].Id() != root.children[0] {
          var below := Zip(root.children, keys);
          FirstErrorWins(s, o.blocks, below, n - 1 - |below|, 0);
          hide OpenLevel;
          assert Collect(s, o.blocks, below, n - 1 - |below|) == Err(InvalidBlockId);
        }
    }
  }

  lemma JoinNothing(r: Result<Level, ParseError>)
    ensures r.Ok? ==> Join(r.value, Level([], [], [])) == r.value
  {
  }

  // ----- Loading -----

  /** What loads is the layout, the root alone with the key it was loaded with. */
  lemma LoadGivesLayout(s: Suite, st: Store, id: Digest, key: Option<Key>)
    requires Filed(st) && Load(s, st, id, key).Ok?
    ensures var blocks, layout := Load(s, st, id, key).value.blocks, Layout(st, [id]);
            && layout != [] && |blocks| == |layout| && id in st && layout[|layout| - 1] == st[id]
            && (forall i :: 0 <= i < |blocks| - 1 ==> blocks[i] == layout[i])
            && blocks[|blocks| - 1] == st[id].(key := if key.Some? then key else st[id].key)
  {
    hide Layout, LoadDeps;
    assert id in st by { if id !in st { MissingRoot(st, id); } }
    LayoutEndsWith(st, id);
  }

  /**
   * Loading reports the blocks missing under the root, exactly them, if there are
   * any; else what is wrong with the dep-list object, if there is one; else it
   * succeeds.
   */
  lemma LoadReports(s: Suite, st: Store, id: Digest, key: Option<Key>)
    requires Filed(st)
    ensures var r := Load(s, st, id, key);
            && ((exists x :: Loading.Frontier(st, id, x)) ==>
                  r.Err? && r.error.MissingBlocks? && forall x :: x in r.error.ids <==> Loading.Frontier(st, id, x))
            && (!(exists x :: Loading.Frontier(st, id, x)) ==>
                  && id in st
                  && (st[id].deps.ObjectIdList? ==> r.Ok? && r.value.deps == st[id].deps.ids)
                  && (st[id].deps.DepListRef? ==>
                        var list := Load(s, st, st[id].deps.ref.id, Some(st[id].deps.ref.key));
                        list.Err? ==> r == Err(list.error)))
  {
    hide Missing, Loading.Frontier, Layout, Content;
    forall x ensures x in Missing(st, [id]) <==> Loading.Frontier(st, id, x) {
      Loading.MissingIsFrontier(st, id, x);
    }
    var missing := Missing(st, [id]);
    if missing != [] {
      assert missing[0] in missing;
    }
    if id !in st {
      MissingRoot(st, id);
    }
  }

  /**
   * In which order blocks are reported missing: the children of a stored root
   * before anything deeper, the last child first.
   */
  lemma ChildrenReportedFirst(st: Store, id: Digest) returns (k: nat)
    requires Filed(st) && id in st
    ensures var missing, children := Missing(st, [id]), st[id].children;
            && k <= |missing|
            && (forall i :: 0 <= i < k ==> missing[i] in children && missing[i] !in st)
            && (forall x :: x in children && x !in st ==> x in missing[..k])
            && ((forall x <- children :: x !in st) ==> k == |children| && forall i :: 0 <= i < k ==> missing[i] == children[k - 1 - i])
  {
    hide Missing, Absent, Reverse;
    var children := st[id].children;
    var first := Reverse(Absent(st, children));
    MissingOfRoot(st, id);
    AbsentReversed(st, children);
    k := |first|;
    assert Missing(st, [id])[..k] == first;
    forall i | 0 <= i < k
      ensures Missing(st, [id])[i] == first[i]
    {
    }
  }

  lemma MissingOfRoot(st: Store, id: Digest)
    requires Filed(st) && id in st
    ensures Reverse(Absent(st, st[id].children)) <= Missing(st, [id])
  {
    OneId(st, id);
    assert [st[id]][1..] == [];
    assert Children([]) == [];
    assert Below(st, [id]) == st[id].children + [] == st[id].children;
    assert Missing(st, [id]) == [] + if st[id].children == [] then [] else Missing(st, st[id].children);
  }

  lemma AbsentReversed(st: Store, ids: seq<Digest>)
    ensures var r := Reverse(Absent(st, ids));
            && (forall i :: 0 <= i < |r| ==> r[i] in ids && r[i] !in st)
            && (forall x :: x in ids && x !in st ==> x in r)
            && ((forall x <- ids :: x !in st) ==> |r| == |ids| && forall i :: 0 <= i < |r| ==> r[i] == ids[|r| - 1 - i])
  {
    hide Reverse, Absent;
    var r := Reverse(Absent(st, ids));
    forall x
      ensures x in r <==> x in ids && x !in st
    {
      Loading.InReverse(Absent(st, ids), x);
      Loading.InAbsent(st, ids, x);
    }
    if forall x <- ids :: x !in st {
      AllAbsent(st, ids);
      ReverseAt(ids);
    }
  }

  lemma {:induction false} AllAbsent(st: Store, ids: seq<Digest>)
    requires forall x <- ids :: x !in st
    ensures Absent(st, ids) == ids
  {
    if ids != [] {
      AllAbsent(st, ids[1..]);
    }
  }

  lemma {:induction false} ReverseAt<T>(s: seq<T>)
    ensures |Reverse(s)| == |s| && forall i :: 0 <= i < |s| ==> Reverse(s)[i] == s[|s| - 1 - i]
  {
    if s != [] {
      ReverseAt(s[1..]);
    }
  }

  /** A dep list is read back from the object made of it; an object of any other content is no dep list. */
  lemma DepRefReads(s: Suite, content: ObjectContent, deps: seq<Digest>, expiry: Option<Timestamp>,
                    blockSize: nat, pubkey: Key, secret: Key, st: Store)
    requires s.Sound() && Filed(st) && blockSize + Sizes.HEADER < Sizes.USIZE_LIMIT && |deps| <= 8
    requires Contains(st, New(s, content, deps, expiry, blockSize, pubkey, secret).blocks)
    ensures var o := New(s, content, deps, expiry, blockSize, pubkey, secret);
            && o.Key().Some?
            && LoadDeps(s, st, DepListRef(ObjectRef(o.Id(), o.Key().value)))
               == if content.DepListObject? then Ok(content.ids) else Err(InvalidDeps)
  {
    hide New, Load, Contains, Walk;
    RoundTrips(s, content, deps, expiry, blockSize, pubkey, secret, st);
  }

  // ----- Commits -----

  /** A commit or body that does not load for blocks missing reports those; any other failure to load is a parse error. */
  lemma UnloadableCommit(s: Suite, st: Store, c: CommitContent)
    requires Filed(st) && Load(s, st, c.body.id, Some(c.body.key)).Err?
    ensures var e := Load(s, st, c.body.id, Some(c.body.key)).error;
            var reported := if e.MissingBlocks? then Commits.MissingBlocks(e.ids) else Commits.ObjectParseError;
            Commits.CommitAt(s, st, c.body) == Err(reported) && Commits.BodyOf(s, st, c) == Err(reported)
  {
    hide Load, Content;
  }

  /** A one-block object that does not parse is a parse error, as a commit and as a body. */
  lemma UnparsableCommit(s: Suite, st: Store, b: Block, key: Key, c: CommitContent)
    requires Filed(st) && b.Id() in st && st[b.Id()] == b && b.children == [] && b.deps.ObjectIdList?
    requires Content(s, Object([b.(key := Some(key))], b.deps.ids)).Err? && c.body == ObjectRef(b.Id(), key)
    ensures Commits.CommitAt(s, st, c.body) == Err(Commits.ObjectParseError)
    ensures Commits.BodyOf(s, st, c) == Err(Commits.ObjectParseError)
  {
    hide Load, Content;
    OneBlockLoads(s, st, b, Some(key));
  }
}
