// Object operations of the broker over its LMDB store, and the client's side of them.

module Broker {
  import opened Types
  import opened Objects
  import opened RepoStore
  import opened StoreInvariants
  import opened Needs
  import opened Pinning
  import opened Storing
  import HashStore
  import ObjectOps
  import Loading
  import Branches
  import Protocol
  import Sizes

  // ----- Loading through the store, which moves what it reads in the LRU -----

  /** Only times of last use have changed. */
  ghost predicate Touched(a: Db, b: Db) {
    && a.main == b.main && a.expiry == b.expiry && a.meta.Keys == b.meta.Keys
    && forall id <- a.meta :: a.meta[id].pin == b.meta[id].pin && a.meta[id].synced == b.meta[id].synced
  }

  /**
   * What reading does: each stored, synced block that was read is last used when
   * it was last read, and nothing else has changed but the LRU with it.
   */
  ghost predicate Reads(a: Db, b: Db, uses: map<Digest, Timestamp>) {
    && Touched(a, b) && (forall id <- uses :: uses[id] > 0)
    && forall id <- a.meta :: b.meta[id].lastUsed == if id in uses && Counts(a, id) then uses[id] else a.meta[id].lastUsed
  }

  lemma ReadsOne(db: Db, id: Digest, now: Timestamp)
    requires Valid(db) && now > 0
    ensures Reads(db, GetStep(db, id, now).1, map[id := now])
  {
    GetKeeps(db, id, now);
    GetIsExact(db, id, now);
    hide GetStep, Valid;
  }

  lemma ReadsMore(a: Db, b: Db, c: Db, first: map<Digest, Timestamp>, then': map<Digest, Timestamp>)
    requires Reads(a, b, first) && Reads(b, c, then')
    ensures Reads(a, c, first + then')
  {
  }

  lemma ReadsNothing(db: Db)
    ensures Reads(db, db, map[])
  {
  }

  lemma ReadsKeepMain(a: Db, b: Db, uses: map<Digest, Timestamp>)
    requires Reads(a, b, uses)
    ensures a.main == b.main && Touched(a, b)
  {
  }

  /** What loading some ids asks the store for: the blocks it finds and those it misses. */
  function Asked(st: Store, ids: seq<Digest>): set<Digest>
    requires Filed(st)
  {
    IdSet(Layout(st, ids)) + SetOf(Missing(st, ids))
  }

  lemma {:induction false} FoundOrAbsent(st: Store, ids: seq<Digest>)
    requires Filed(st)
    ensures IdSet(Found(st, ids)) + SetOf(Absent(st, ids)) == SetOf(ids)
  {
    if ids != [] {
      FoundOrAbsent(st, ids[1..]);
      assert SetOf(ids) == {ids[0]} + SetOf(ids[1..]);
      if ids[0] in st {
        var b := st[ids[0]];
        assert b.Id() == b.Hash() == ids[0];
        IdsConcat([b], Found(st, ids[1..]));
        assert Ids([b]) == [ids[0]];
        assert Absent(st, ids) == [] + Absent(st, ids[1..]) == Absent(st, ids[1..]);
      } else {
        SetConcat([ids[0]], Absent(st, ids[1..]));
        assert Found(st, ids) == [] + Found(st, ids[1..]) == Found(st, ids[1..]);
      }
    }
  }

  lemma SetConcat(a: seq<Digest>, b: seq<Digest>)
    ensures SetOf(a + b) == SetOf(a) + SetOf(b)
  {
  }

  lemma SetSnoc(ids: seq<Digest>, i: nat)
    requires i < |ids|
    ensures SetOf(ids[..i + 1]) == SetOf(ids[..i]) + {ids[i]}
  {
    assert ids[..i + 1] == ids[..i] + [ids[i]];
  }

  lemma LevelStart(st: Store)
    ensures Reverse<Digest>([]) == [] && Found(st, []) == [] && Absent(st, []) == [] && Below(st, []) == [] && SetOf([]) == {}
  {
  }

  lemma IdsConcat(a: seq<Block>, b: seq<Block>)
    ensures IdSet(a + b) == IdSet(a) + IdSet(b)
  {
    assert Ids(a + b) == Ids(a) + Ids(b);
  }

  lemma {:induction false} SetReversed(ids: seq<Digest>)
    ensures SetOf(Reverse(ids)) == SetOf(ids)
  {
    if ids != [] {
      SetReversed(ids[1..]);
      SetConcat(Reverse(ids[1..]), [ids[0]]);
      assert ids == [ids[0]] + ids[1..];
      SetConcat([ids[0]], ids[1..]);
    }
  }

  /** A level is asked for, then what is below it. */
  lemma AskedStep(st: Store, ids: seq<Digest>)
    requires Filed(st)
    ensures Asked(st, ids) == SetOf(ids) + if Below(st, ids) == [] then {} else Asked(st, Below(st, ids))
  {
    hide SetOf, IdSet, Found, Absent;
    var below := Below(st, ids);
    FoundOrAbsent(st, ids);
    SetReversed(Absent(st, ids));
    if below == [] {
      assert [] + Found(st, ids) == Found(st, ids);
      assert Reverse(Absent(st, ids)) + [] == Reverse(Absent(st, ids));
    } else {
      IdsConcat(Layout(st, below), Found(st, ids));
      SetConcat(Reverse(Absent(st, ids)), Missing(st, below));
    }
  }

  /** `now_timestamp`: some time after the epoch. */
  method Clock() returns (now: Timestamp)
    ensures now > 0
  {
    assert (1 as Timestamp) > 0;
    now :| now > 0;
  }

  /** The loop of `load_tree`, each block coming from `get`. */
  method GetLevel(store: LmdbRepoStore, parents: seq<Digest>, blocksIn: seq<Block>, missingIn: seq<Digest>)
    returns (blocks: seq<Block>, missing: seq<Digest>, children: seq<Digest>, ghost uses: map<Digest, Timestamp>)
    requires Valid(store.State())
    modifies store
    ensures Valid(store.State()) && Reads(old(store.State()), store.State(), uses) && uses.Keys == SetOf(parents)
    ensures blocks == Found(store.main, Reverse(parents)) + blocksIn
    ensures missing == missingIn + Absent(store.main, parents)
    ensures children == Reverse(Below(store.main, Reverse(parents)))
  {
    hide Valid, GetStep, Reads, Touched, SetOf, Found, Absent, Below, Reverse;
    LevelStart(store.main);
    blocks, missing, children, uses := blocksIn, missingIn, [], map[];
    ghost var st := store.main;
    ReadsNothing(store.State());
    var i := 0;
    while i < |parents|
      invariant 0 <= i <= |parents|
      invariant Valid(store.State()) && Reads(old(store.State()), store.State(), uses) && store.main == st
      invariant uses.Keys == SetOf(parents[..i])
      invariant blocks == Found(st, Reverse(parents[..i])) + blocksIn
      invariant missing == missingIn + Absent(st, parents[..i])
      invariant children == Reverse(Below(st, Reverse(parents[..i])))
    {
      var id := parents[i];
      var now := Clock();
      ghost var before := store.State();
      GetKeeps(before, id, now);
      ReadsOne(before, id, now);
      ObjectOps.LevelStep(st, parents, i);
      var r := store.Get(id, now);
      ReadsMore(old(store.State()), before, store.State(), uses, map[id := now]);
      ReadsKeepMain(before, store.State(), map[id := now]);
      uses := uses + map[id := now];
      assert SetOf(parents[..i + 1]) == SetOf(parents[..i]) + {id} by { SetSnoc(parents, i); }
      if r.Done? {
        ObjectOps.ConcatAssociative([r.value], Found(st, Reverse(parents[..i])), blocksIn);
        blocks := [r.value] + blocks;
        children := children + Reverse(r.value.children);
      } else {
        assert [] + Found(st, Reverse(parents[..i])) == Found(st, Reverse(parents[..i]));
        ObjectOps.ConcatAssociative(missingIn, Absent(st, parents[..i]), [id]);
        missing := missing + [id];
      }
      i := i + 1;
    }
    assert parents[..i] == parents;
  }

  /** `load_tree` over the LMDB store. */
  method GetTree(store: LmdbRepoStore, parents: seq<Digest>, blocksIn: seq<Block>, missingIn: seq<Digest>)
    returns (blocks: seq<Block>, missing: seq<Digest>, ghost uses: map<Digest, Timestamp>)
    requires Valid(store.State()) && Filed(store.main)
    modifies store
    ensures Valid(store.State()) && Reads(old(store.State()), store.State(), uses) && Filed(store.main)
    ensures uses.Keys == Asked(store.main, Reverse(parents))
    ensures blocks == Layout(store.main, Reverse(parents)) + blocksIn
    ensures missing == missingIn + Missing(store.main, Reverse(parents))
    decreases MaxHeight(Reverse(parents))
  {
    hide Valid, Filed, Reads, Asked;
    var children;
    blocks, missing, children, uses := GetLevel(store, parents, blocksIn, missingIn);
    ghost var level := store.State();
    assert store.main == old(store.main) by { ReadsKeepMain(old(store.State()), level, uses); }
    AskedStep(store.main, Reverse(parents));
    SetReversed(parents);
    ObjectOps.TreeStep(store.main, parents);
    ghost var below := Below(store.main, Reverse(parents));
    ObjectOps.ReverseTwice(below);
    if children != [] {
      assert Reverse(children) == below;
      ObjectOps.ConcatAssociative(Layout(store.main, below), Found(store.main, Reverse(parents)), blocksIn);
      ObjectOps.ConcatAssociative(missingIn, Absent(store.main, parents), Missing(store.main, below));
      ghost var lower;
      blocks, missing, lower := GetTree(store, children, blocks, missing);
      ReadsKeepMain(level, store.State(), lower);
      ReadsMore(old(store.State()), level, store.State(), uses, lower);
      uses := uses + lower;
    } else {
      assert below == [];
    }
  }

  /** `Object::load` from the LMDB store: reads all blocks of the object, and then of its dep-list object, if it has one. */
  method LoadFrom(store: LmdbRepoStore, s: Suite, id: Digest, key: Option<Key>)
    returns (r: Result<Object, ParseError>, ghost uses: map<Digest, Timestamp>)
    requires Valid(store.State()) && Filed(store.main)
    modifies store
    ensures Valid(store.State()) && Reads(old(store.State()), store.State(), uses) && Filed(store.main)
    ensures r == Load(s, store.main, id, key)
    ensures Asked(store.main, [id]) <= uses.Keys && (r.Ok? ==> uses.Keys == Needed(store.main, id))
    decreases id, 0
  {
    hide Valid, LoadDeps, Reads, Layout, Missing;
    ghost var st := store.main;
    var blocks, missing;
    blocks, missing, uses := GetTree(store, [id], [], []);
    ghost var loaded := store.State();
    ReadsKeepMain(old(store.State()), loaded, uses);
    OneId(st, id);
    assert blocks == Layout(st, [id]) && missing == Missing(st, [id]);
    if missing != [] {
      return Err(ParseError.MissingBlocks(missing)), uses;
    }
    assert SetOf(missing) == {};
    assert id in st by { if id !in st { MissingRoot(st, id); } }
    LayoutEndsWith(st, id);
    assert st[id].Hash() == id;
    blocks := WithRootKey(blocks, key);
    var deps;
    ghost var more;
    deps, more := LoadDepsFrom(store, s, blocks[|blocks| - 1].deps);
    ReadsKeepMain(loaded, store.State(), more);
    ReadsMore(old(store.State()), loaded, store.State(), uses, more);
    uses := uses + more;
    match deps {
      case Err(e) => r := Err(e);
      case Ok(ids) => r := Ok(Object(blocks, ids));
    }
  }

  method LoadDepsFrom(store: LmdbRepoStore, s: Suite, deps: ObjectDeps)
    returns (r: Result<seq<Digest>, ParseError>, ghost uses: map<Digest, Timestamp>)
    requires Valid(store.State()) && Filed(store.main)
    modifies store
    ensures Valid(store.State()) && Reads(old(store.State()), store.State(), uses) && Filed(store.main)
    ensures r == LoadDeps(s, store.main, deps)
    ensures r.Ok? ==> uses.Keys == if deps.DepListRef? then Needed(store.main, deps.ref.id) else {}
    decreases deps, 1
  {
    hide Valid, Load, Content, Reads, Needed;
    uses := map[];
    ReadsNothing(store.State());
    match deps {
      case ObjectIdList(ids) => r := Ok(ids);
      case DepListRef(ref) =>
        var list;
        list, uses := LoadFrom(store, s, ref.id, Some(ref.key));
        if list.Err? {
          return Err(list.error), uses;
        }
        var content := ObjectOps.ContentOf(s, list.value);
        match content {
          case Err(e) => r := Err(e);
          case Ok(DepListObject(ids)) => r := Ok(ids);
          case Ok(_) => r := Err(InvalidDeps);
        }
    }
  }

  // ----- Each block once -----

  /** The first block of each id, in order: what the `deduplicated` sets let through. */
  function Dedup(blocks: seq<Block>, done: set<Digest>): seq<Block>
    decreases |blocks|
  {
    if blocks == [] then []
    else if blocks[0].Id() in done then Dedup(blocks[1..], done)
    else [blocks[0]] + Dedup(blocks[1..], done + {blocks[0].Id()})
  }

  /** Every id comes through exactly once, but for those done before. */
  lemma {:induction false} DedupIds(blocks: seq<Block>, done: set<Digest>)
    ensures forall x :: x in Ids(Dedup(blocks, done)) <==> x in Ids(blocks) && x !in done
    ensures Distinct(Ids(Dedup(blocks, done)))
    ensures forall b <- Dedup(blocks, done) :: b in blocks
    decreases |blocks|
  {
    if blocks != [] {
      var b := blocks[0];
      Loading.IdsCons(blocks);
      DedupIds(blocks[1..], done + {b.Id()});
      assert b.Id() in done ==> done + {b.Id()} == done;
      if b.Id() !in done {
        Loading.IdsCons(Dedup(blocks, done));
      }
    }
  }

  /** `positions` are where what comes through stands in the input: in its order, each the first with its id. */
  ghost predicate Picks(blocks: seq<Block>, picked: seq<Block>, positions: seq<nat>) {
    && |positions| == |picked|
    && (forall i :: 0 <= i < |positions| ==> positions[i] < |blocks| && picked[i] == blocks[positions[i]])
    && (forall i, j :: 0 <= i < j < |positions| ==> positions[i] < positions[j])
    && (forall i, k :: 0 <= i < |positions| && 0 <= k < positions[i] ==> blocks[k].Id() != picked[i].Id())
  }

  function Shifted(positions: seq<nat>): (r: seq<nat>)
    ensures |r| == |positions| && forall i :: 0 <= i < |r| ==> r[i] == positions[i] + 1
  {
    seq(|positions|, i requires 0 <= i < |positions| => positions[i] + 1)
  }

  lemma ShiftPicks(blocks: seq<Block>, picked: seq<Block>, positions: seq<nat>)
    requires blocks != [] && Picks(blocks[1..], picked, positions) && blocks[0].Id() !in Ids(picked)
    ensures Picks(blocks, picked, Shifted(positions))
  {
    var shifted := Shifted(positions);
    forall i, k | 0 <= i < |shifted| && 0 <= k < shifted[i]
      ensures blocks[k].Id() != picked[i].Id()
    {
      if k > 0 {
        assert blocks[1..][k - 1] == blocks[k];
      } else {
        assert Ids(picked)[i] == picked[i].Id();
      }
    }
  }

  lemma PickFirst(blocks: seq<Block>, picked: seq<Block>, positions: seq<nat>)
    requires blocks != [] && Picks(blocks, picked, positions) && (forall i :: 0 <= i < |positions| ==> positions[i] > 0)
    ensures Picks(blocks, [blocks[0]] + picked, [0] + positions)
  {
  }

  /** What comes through does so in the order of the input, at its first occurrence. */
  lemma {:induction false} DedupOrder(blocks: seq<Block>, done: set<Digest>) returns (positions: seq<nat>)
    ensures Picks(blocks, Dedup(blocks, done), positions)
    decreases |blocks|
  {
    positions := [];
    if blocks != [] {
      var b, rest := blocks[0], blocks[1..];
      var later := done + {b.Id()};
      assert b.Id() in done ==> later == done;
      var lower := DedupOrder(rest, later);
      DedupIds(rest, later);
      ShiftPicks(blocks, Dedup(rest, later), lower);
      positions := Shifted(lower);
      if b.Id() !in done {
        PickFirst(blocks, Dedup(rest, later), positions);
        positions := [0] + positions;
      }
      hide Picks;
    }
  }

  // ----- pin_object, unpin_object, del_object -----

  function IdSet(blocks: seq<Block>): set<Digest> {
    set x | x in Ids(blocks)
  }

  /** Pinned after are those pinned before and those in `ids`. */
  ghost predicate Pins(a: Db, b: Db, ids: set<Digest>) {
    forall x :: Pinned(b, x) <==> Pinned(a, x) || x in ids
  }

  /** The pins of `ids` have been set or taken away, and nothing else in the meta data has changed, nor any block. */
  ghost predicate Repinned(a: Db, b: Db, ids: set<Digest>, add: bool) {
    && b.main == a.main && b.expiry == a.expiry && b.meta.Keys == a.meta.Keys + (if add then ids else {})
    && forall x <- b.meta ::
         b.meta[x] == if x !in a.meta then Meta(true, 0, false)
                      else Meta(if x in ids then add else a.meta[x].pin, a.meta[x].lastUsed, a.meta[x].synced)
  }

  lemma RepinnedNone(db: Db, add: bool)
    ensures Repinned(db, db, {}, add)
  {
  }

  lemma RepinOne(start: Db, db: Db, done: set<Digest>, id: Digest, add: bool)
    requires Valid(db) && Repinned(start, db, done, add)
    ensures Repinned(start, SetPinStep(db, id, add).1, done + {id}, add)
  {
    hide Valid, SetPinStep;
    SetPinKeeps(db, id, add);
    var after := SetPinStep(db, id, add).1;
    assert after.meta.Keys == db.meta.Keys + (if add then {id} else {});
    forall x | x in after.meta
      ensures after.meta[x] == if x !in start.meta then Meta(true, 0, false)
                               else Meta(if x in done + {id} then add else start.meta[x].pin, start.meta[x].lastUsed, start.meta[x].synced)
    {
    }
  }

  lemma PinOne(start: Db, db: Db, done: set<Digest>, id: Digest)
    requires Valid(db) && Pins(start, db, done) && id in db.main
    ensures var after := SetPinStep(db, id, true).1;
            Valid(after) && after.main == db.main && Pins(start, after, done + {id})
  {
    hide Valid, SetPinStep;
    SetPinKeeps(db, id, true);
    var after := SetPinStep(db, id, true).1;
    forall x
      ensures Pinned(after, x) <==> Pinned(db, x) || x == id
    {
    }
    hide Pinned;
  }

  lemma IdsSnoc(blocks: seq<Block>, i: nat)
    requires i < |blocks|
    ensures IdSet(blocks[..i + 1]) == IdSet(blocks[..i]) + {blocks[i].Id()}
    ensures blocks[i].Id() in Ids(blocks)
  {
    assert Ids(blocks[..i + 1]) == Ids(blocks[..i]) + [blocks[i].Id()];
    assert Ids(blocks)[i] == blocks[i].Id();
  }

  /** A loaded object's blocks are its layout, all of them stored. */
  lemma LoadedIds(s: Suite, st: Store, id: Digest)
    requires Filed(st) && Load(s, st, id, None).Ok?
    ensures Load(s, st, id, None).value.blocks == Layout(st, [id])
    ensures forall x <- Ids(Layout(st, [id])) :: x in st
    ensures id in st && Missing(st, [id]) == []
  {
    hide LoadDeps, Layout;
    assert id in st by { if id !in st { MissingRoot(st, id); } }
    LayoutStored(st, [id]);
    var l := Layout(st, [id]);
    forall x | x in Ids(l)
      ensures x in st
    {
      var i :| 0 <= i < |l| && Ids(l)[i] == x;
      assert l[i] in l;
    }
  }

  /** The loop of `pin_object`. */
  method PinBlocks(store: LmdbRepoStore, blocks: seq<Block>)
    requires Valid(store.State()) && forall x <- Ids(blocks) :: x in store.main
    modifies store
    ensures Valid(store.State()) && store.main == old(store.main)
    ensures Pins(old(store.State()), store.State(), IdSet(blocks)) && Repinned(old(store.State()), store.State(), IdSet(blocks), true)
  {
    hide Valid, Pinned, SetPinStep, Repinned;
    RepinnedNone(store.State(), true);
    var done: set<Digest> := {};
    var i := 0;
    while i < |blocks|
      invariant 0 <= i <= |blocks|
      invariant Valid(store.State()) && store.main == old(store.main)
      invariant done == IdSet(blocks[..i]) && Pins(old(store.State()), store.State(), done)
      invariant Repinned(old(store.State()), store.State(), done, true)
    {
      var bid := blocks[i].Id();
      IdsSnoc(blocks, i);
      if bid !in done {
        PinOne(old(store.State()), store.State(), done, bid);
        RepinOne(old(store.State()), store.State(), done, bid, true);
        var pinned := store.SetPin(bid, true);
        done := done + {bid};
      }
      i := i + 1;
    }
    assert blocks[..i] == blocks;
  }

  /** `pin_object`: pins every block of the object, and leaves the pins of all others alone. */
  method PinObject(store: LmdbRepoStore, s: Suite, id: Digest)
    returns (r: Result<(), Protocol.ProtocolError>, ghost loaded: Db, ghost uses: map<Digest, Timestamp>)
    requires Valid(store.State()) && Filed(store.main)
    modifies store
    ensures Valid(store.State()) && store.main == old(store.main) && Filed(store.main)
    ensures r == if Load(s, store.main, id, None).Ok? then Ok(()) else Err(Protocol.NotFound)
    ensures Pins(old(store.State()), store.State(), if r.Ok? then IdSet(Layout(store.main, [id])) else {})
    ensures Reads(old(store.State()), loaded, uses) && (r.Ok? ==> uses.Keys == Needed(store.main, id))
    ensures if r.Ok? then Repinned(loaded, store.State(), IdSet(Layout(store.main, [id])), true) else store.State() == loaded
  {
    hide Valid, Load, Layout, Missing, Pinned, Reads, Needed, Repinned;
    var obj;
    obj, uses := LoadFrom(store, s, id, None);
    loaded := store.State();
    ReadsKeepMain(old(store.State()), loaded, uses);
    TouchedPins(old(store.State()), loaded);
    if obj.Err? {
      return Err(Protocol.NotFound), loaded, uses;
    }
    LoadedIds(s, store.main, id);
    PinBlocks(store, obj.value.blocks);
    r := Ok(());
  }

  /**
   * What `pin_object` buys: with all blocks of the object pinned, it survives
   * every run that deletes, unpins and expires none of its blocks exactly when
   * its deps are a plain list, or what its dep-list object needs, which
   * `pin_object` leaves alone, is pinned too.
   */
  lemma PinProtectsIff(s: Suite, db: Db, id: Digest, key: Option<Key>)
    requires Valid(db) && Filed(db.main) && Load(s, db.main, id, key).Ok?
    requires AllPinned(db, IdSet(Layout(db.main, [id])))
    ensures id in db.main
    ensures (db.main[id].deps.ObjectIdList? || AllPinned(db, Needed(db.main, db.main[id].deps.ref.id))) <==>
            forall dbs, ops, panics ::
              GentleRun(dbs, ops, panics, Needed(db.main, id)) && dbs[0] == db ==> LoadsLike(s, db, dbs[|ops|], id, key)
  {
    hide Load, Layout, Valid, Pinned;
    LoadedMeans(s, db.main, id, key);
    SurvivesIffPinned(s, db, id, key);
    assert AllPinned(db, Needed(db.main, id)) <==>
           db.main[id].deps.ObjectIdList? || AllPinned(db, Needed(db.main, db.main[id].deps.ref.id));
  }

  /** Pinned after are those pinned before and not in `ids`. */
  ghost predicate Unpins(a: Db, b: Db, ids: set<Digest>) {
    forall x :: Pinned(b, x) <==> Pinned(a, x) && x !in ids
  }

  lemma UnpinOne(start: Db, db: Db, done: set<Digest>, id: Digest)
    requires Valid(db) && Unpins(start, db, done)
    ensures var after := SetPinStep(db, id, false).1;
            Valid(after) && after.main == db.main && Unpins(start, after, done + {id})
  {
    hide Valid;
    SetPinKeeps(db, id, false);
    var after := SetPinStep(db, id, false).1;
    forall x
      ensures Pinned(after, x) <==> Pinned(db, x) && x != id
    {
    }
    hide Pinned;
  }

  /** The loop of `unpin_object`. */
  method UnpinBlocks(store: LmdbRepoStore, blocks: seq<Block>)
    requires Valid(store.State())
    modifies store
    ensures Valid(store.State()) && store.main == old(store.main)
    ensures Unpins(old(store.State()), store.State(), IdSet(blocks)) && Repinned(old(store.State()), store.State(), IdSet(blocks), false)
  {
    hide Valid, Pinned, SetPinStep, Repinned;
    RepinnedNone(store.State(), false);
    var done: set<Digest> := {};
    var i := 0;
    while i < |blocks|
      invariant 0 <= i <= |blocks|
      invariant Valid(store.State()) && store.main == old(store.main)
      invariant done == IdSet(blocks[..i]) && Unpins(old(store.State()), store.State(), done)
      invariant Repinned(old(store.State()), store.State(), done, false)
    {
      var bid := blocks[i].Id();
      IdsSnoc(blocks, i);
      if bid !in done {
        UnpinOne(old(store.State()), store.State(), done, bid);
        RepinOne(old(store.State()), store.State(), done, bid, false);
        var unpinned := store.SetPin(bid, false);
        done := done + {bid};
      }
      i := i + 1;
    }
    assert blocks[..i] == blocks;
  }

  lemma TouchedPins(a: Db, b: Db)
    requires Touched(a, b)
    ensures Pins(a, b, {}) && Unpins(a, b, {})
    ensures forall x :: Held(a, x) <==> Held(b, x)
  {
  }

  /** `unpin_object`: unpins every block of the object, even those other objects share, and no other. */
  method UnpinObject(store: LmdbRepoStore, s: Suite, id: Digest)
    returns (r: Result<(), Protocol.ProtocolError>, ghost loaded: Db, ghost uses: map<Digest, Timestamp>)
    requires Valid(store.State()) && Filed(store.main)
    modifies store
    ensures Valid(store.State()) && store.main == old(store.main) && Filed(store.main)
    ensures r == if Load(s, store.main, id, None).Ok? then Ok(()) else Err(Protocol.NotFound)
    ensures Unpins(old(store.State()), store.State(), if r.Ok? then IdSet(Layout(store.main, [id])) else {})
    ensures Reads(old(store.State()), loaded, uses) && (r.Ok? ==> uses.Keys == Needed(store.main, id))
    ensures if r.Ok? then Repinned(loaded, store.State(), IdSet(Layout(store.main, [id])), false) else store.State() == loaded
  {
    hide Valid, Load, Layout, Missing, Pinned, Reads, Needed, Repinned;
    var obj;
    obj, uses := LoadFrom(store, s, id, None);
    loaded := store.State();
    ReadsKeepMain(old(store.State()), loaded, uses);
    TouchedPins(old(store.State()), loaded);
    if obj.Err? {
      return Err(Protocol.NotFound), loaded, uses;
    }
    LoadedIds(s, store.main, id);
    UnpinBlocks(store, obj.value.blocks);
    r := Ok(());
  }

  ghost predicate AnyHeld(db: Db, ids: set<Digest>) {
    exists x <- ids :: Held(db, x)
  }

  lemma FirstHeldHere(db: Db, blocks: seq<Block>, k: nat)
    requires k < |blocks| && Held(db, blocks[k].Id()) && !AnyHeld(db, IdSet(blocks[..k]))
    ensures FirstHeld(db, Ids(blocks), k)
  {
    hide Held;
    var before := Ids(blocks)[..k];
    assert before == Ids(blocks[..k]);
    forall i | 0 <= i < |before|
      ensures !Held(db, before[i])
    {
      assert before[i] in IdSet(blocks[..k]);
    }
    assert Ids(blocks)[k] == blocks[k].Id();
  }

  lemma DelOne(start: Db, done: set<Digest>, id: Digest)
    requires Valid(Without(start, done)) && id in start.main && id !in done
    ensures var (r, after) := DelStep(Without(start, done), id);
            if Held(start, id) then r == Panic && after == Without(start, done)
            else r.Done? && after == Without(start, done + {id}) && Valid(after)
  {
    DelIsExact(Without(start, done), id);
    assert Held(Without(start, done), id) <==> Held(start, id);
    hide Valid, DelStep;
    WithoutTwice(start, done, {id});
    WithoutKeeps(Without(start, done), {id});
  }

  /** The loop of `del_object`. */
  method DelBlocks(store: LmdbRepoStore, blocks: seq<Block>) returns (r: Outcome<()>)
    requires Valid(store.State()) && forall x <- Ids(blocks) :: x in store.main
    modifies store
    ensures Valid(store.State())
    ensures r == if AnyHeld(old(store.State()), IdSet(blocks)) then Panic else Done(())
    ensures r.Done? ==> store.State() == Without(old(store.State()), IdSet(blocks))
    ensures r.Panic? ==> exists k: nat :: FirstHeld(old(store.State()), Ids(blocks), k) && store.State() == Without(old(store.State()), IdSet(blocks[..k]))
  {
    hide Valid, DelStep, Held, Without;
    ghost var start := store.State();
    var done: set<Digest> := {};
    WithoutNone(start);
    var i := 0;
    while i < |blocks|
      invariant 0 <= i <= |blocks|
      invariant Valid(store.State()) && store.State() == Without(start, done)
      invariant done == IdSet(blocks[..i]) && !AnyHeld(start, done)
    {
      var bid := blocks[i].Id();
      IdsSnoc(blocks, i);
      if bid !in done {
        DelOne(start, done, bid);
        var gone := store.Del(bid);
        if !gone.Done? {
          assert bid in IdSet(blocks);
          FirstHeldHere(start, blocks, i);
          return Panic;
        }
        done := done + {bid};
      }
      i := i + 1;
    }
    assert blocks[..i] == blocks;
    r := Done(());
  }

  /** `del_object`: deletes every block in load order, up to the first that is synced and pinned, on which it panics. */
  method DelObject(store: LmdbRepoStore, s: Suite, id: Digest)
    returns (r: Outcome<()>, ghost loaded: Db, ghost uses: map<Digest, Timestamp>)
    requires Valid(store.State()) && Filed(store.main)
    modifies store
    ensures Valid(store.State())
    ensures r == if Load(s, old(store.main), id, None).Err? then NotFound
                 else if AnyHeld(old(store.State()), IdSet(Layout(old(store.main), [id]))) then Panic
                 else Done(())
    ensures r.Done? ==> store.main == old(store.main) - IdSet(Layout(old(store.main), [id]))
    ensures r.Panic? ==> exists k: nat :: FirstHeld(old(store.State()), Ids(Layout(old(store.main), [id])), k)
                                     && store.main == old(store.main) - IdSet(Layout(old(store.main), [id])[..k])
    ensures Reads(old(store.State()), loaded, uses) && (!r.NotFound? ==> uses.Keys == Needed(old(store.main), id))
    ensures match r
            case NotFound => store.State() == loaded
            case Done(_) => store.State() == Without(loaded, IdSet(Layout(old(store.main), [id])))
            case Panic => exists k: nat :: FirstHeld(loaded, Ids(Layout(old(store.main), [id])), k)
                            && store.State() == Without(loaded, IdSet(Layout(old(store.main), [id])[..k]))
  {
    hide Valid, Load, Layout, Missing, Held, Reads, Needed;
    var obj;
    obj, uses := LoadFrom(store, s, id, None);
    loaded := store.State();
    ReadsKeepMain(old(store.State()), loaded, uses);
    TouchedPins(old(store.State()), loaded);
    if obj.Err? {
      return NotFound, loaded, uses;
    }
    LoadedIds(s, store.main, id);
    r := DelBlocks(store, obj.value.blocks);
  }

  // ----- get_block and sync_branch: what goes into the stream -----

  /** Every id comes through once, and every block of the input is represented. */
  ghost predicate Streams(st: Store, stream: seq<Block>, ids: set<Digest>) {
    && Distinct(Ids(stream)) && IdSet(stream) == ids
    && forall b <- stream :: b.Id() in st && st[b.Id()] == b
  }

  /** The loop that sends the blocks of an object not sent yet. */
  method SendBlocks(st: Store, blocks: seq<Block>, sentIn: seq<Block>, doneIn: set<Digest>)
    returns (sent: seq<Block>, done: set<Digest>)
    requires Streams(st, sentIn, doneIn)
    requires forall b <- blocks :: b.Id() in st && st[b.Id()] == b
    ensures Streams(st, sent, done) && done == doneIn + IdSet(blocks)
    ensures sent == sentIn + Dedup(blocks, doneIn)
  {
    hide Dedup;
    sent, done := sentIn, doneIn;
    assert sentIn + Dedup(blocks, doneIn) == sent + Dedup(blocks[0..], done) by { assert blocks[0..] == blocks; }
    var i := 0;
    while i < |blocks|
      invariant 0 <= i <= |blocks|
      invariant Streams(st, sent, done) && done == doneIn + IdSet(blocks[..i])
      invariant sentIn + Dedup(blocks, doneIn) == sent + Dedup(blocks[i..], done)
    {
      var b := blocks[i];
      IdsSnoc(blocks, i);
      DedupStep(blocks, i, done);
      if b.Id() !in done {
        SendOne(st, sent, done, b);
        ObjectOps.ConcatAssociative(sent, [b], Dedup(blocks[i + 1..], done + {b.Id()}));
        sent := sent + [b];
        done := done + {b.Id()};
      }
      i := i + 1;
    }
    assert blocks[..i] == blocks && Dedup(blocks[i..], done) == [] by { DedupNone(done); assert blocks[i..] == []; }
    assert sent + [] == sent;
  }

  lemma DedupNone(done: set<Digest>)
    ensures Dedup([], done) == []
  {
  }

  lemma DedupStep(blocks: seq<Block>, i: nat, done: set<Digest>)
    requires i < |blocks|
    ensures Dedup(blocks[i..], done) ==
            if blocks[i].Id() in done then Dedup(blocks[i + 1..], done)
            else [blocks[i]] + Dedup(blocks[i + 1..], done + {blocks[i].Id()})
  {
    assert blocks[i..][1..] == blocks[i + 1..];
  }

  lemma SendOne(st: Store, sent: seq<Block>, done: set<Digest>, b: Block)
    requires Streams(st, sent, done) && b.Id() in st && st[b.Id()] == b && b.Id() !in done
    ensures Streams(st, sent + [b], done + {b.Id()})
  {
    assert Ids(sent + [b]) == Ids(sent) + [b.Id()];
    assert b.Id() !in Ids(sent);
  }

  /**
   * `get_block`: the block alone, or every block of its object once each, in
   * load order. An object with blocks missing is not found.
   */
  method GetBlock(store: LmdbRepoStore, s: Suite, id: Digest, includeChildren: bool)
    returns (r: Result<seq<Block>, Protocol.ProtocolError>, ghost uses: map<Digest, Timestamp>)
    requires Valid(store.State()) && Filed(store.main)
    modifies store
    ensures Valid(store.State()) && Reads(old(store.State()), store.State(), uses) && Filed(store.main)
    ensures r.Ok? ==> uses.Keys == if includeChildren then Needed(store.main, id) else {id}
    ensures !includeChildren ==> r == if id in store.main then Ok([store.main[id]]) else Err(Protocol.NotFound)
    ensures includeChildren ==>
              r == (if Load(s, store.main, id, None).Ok? then Ok(Dedup(Layout(store.main, [id]), {})) else Err(Protocol.NotFound))
    ensures includeChildren && r.Ok? ==> Streams(store.main, r.value, IdSet(Layout(store.main, [id])))
  {
    hide Valid, Load, Layout, Missing, GetStep, Dedup, Reads, Needed;
    if !includeChildren {
      var now := Clock();
      GetKeeps(store.State(), id, now);
      ReadsOne(store.State(), id, now);
      var b := store.Get(id, now);
      return if b.Done? then Ok([b.value]) else Err(Protocol.NotFound), map[id := now];
    }
    var obj;
    obj, uses := LoadFrom(store, s, id, None);
    if obj.Err? {
      return Err(Protocol.NotFound), uses;
    }
    LoadedIds(s, store.main, id);
    LayoutStored(store.main, [id]);
    var sent, done := SendBlocks(store.main, obj.value.blocks, [], {});
    assert {} + IdSet(obj.value.blocks) == IdSet(obj.value.blocks);
    assert [] + Dedup(obj.value.blocks, {}) == Dedup(obj.value.blocks, {});
    r := Ok(sent);
  }

  /** `x` is a block of one of the objects. */
  ghost predicate BlockOfAny(st: Store, objects: set<Digest>, x: Digest)
    requires Filed(st)
  {
    exists id <- objects :: x in IdSet(Layout(st, [id]))
  }

  /**
   * `sync_branch`: the blocks of every commit the peer lacks, once each, in
   * some order of the commits.
   */
  method SyncBranch(store: LmdbRepoStore, s: Suite, heads: seq<Digest>, knownHeads: seq<Digest>, filter: Digest -> bool)
    returns (r: Result<seq<Block>, Protocol.ProtocolError>, ghost commits: set<Digest>, ghost uses: map<Digest, Timestamp>)
    requires Valid(store.State()) && Filed(store.main)
    modifies store
    ensures Valid(store.State()) && Reads(old(store.State()), store.State(), uses) && Filed(store.main)
    ensures r.Ok? ==> forall x :: x in uses <==> exists id <- commits :: x in Needed(store.main, id)
    ensures r.Err? ==> r.error == Protocol.ObjectParseError
    ensures r.Err? <==> Branches.HeadsFail(s, store.main, knownHeads, heads) || Branches.HeadsFail(s, store.main, [], knownHeads)
    ensures r.Ok? ==> forall x :: x in commits <==> Branches.Unsynced(s, store.main, heads, knownHeads, x) && !filter(x)
    ensures r.Ok? ==> Distinct(Ids(r.value)) && forall x :: x in Ids(r.value) <==> BlockOfAny(store.main, commits, x)
    ensures r.Ok? ==> forall b <- r.value :: b.Id() in store.main && store.main[b.Id()] == b
  {
    hide Valid, Load, Layout, Missing, Dedup, Reads, Needed, Branches.HeadsFail, Branches.FirstHeadFailsWith, Branches.Unsynced;
    ghost var st := store.main;
    commits, uses := {}, map[];
    ReadsNothing(store.State());
    var res := Branches.SyncReq(s, store.main, heads, knownHeads, filter);
    if res.Err? {
      return Err(Protocol.ObjectParseError), {}, map[];
    }
    commits := res.value;
    var sent, done, rest := [], {}, res.value;
    while rest != {}
      invariant Valid(store.State()) && Reads(old(store.State()), store.State(), uses) && store.main == st && Filed(st)
      invariant forall x :: x in uses <==> exists id <- commits - rest :: x in Needed(st, id)
      invariant rest <= commits && Streams(st, sent, done)
      invariant forall x :: x in done <==> BlockOfAny(st, commits - rest, x)
      decreases rest
    {
      var id :| id in rest;
      assert Load(s, st, id, None).Ok? by { UnsyncedLoads(s, st, heads, knownHeads, id); }
      ghost var before := store.State();
      var obj, more := LoadFrom(store, s, id, None);
      ReadsKeepMain(before, store.State(), more);
      ReadsMore(old(store.State()), before, store.State(), uses, more);
      uses := uses + more;
      LoadedIds(s, st, id);
      LayoutStored(st, [id]);
      sent, done := SendBlocks(store.main, obj.value.blocks, sent, done);
      assert commits - (rest - {id}) == (commits - rest) + {id};
      rest := rest - {id};
    }
    assert commits - rest == commits;
    r := Ok(sent);
  }

  lemma UnsyncedLoads(s: Suite, st: Store, ours: seq<Digest>, theirs: seq<Digest>, id: Digest)
    requires Filed(st) && Branches.Unsynced(s, st, ours, theirs, id)
    ensures Load(s, st, id, None).Ok?
  {
    var h :| h in ours && Branches.Reaches(s, st, [], h, id);
    var p :| Branches.Trail(s, st, [], p) && p[0] == h && p[|p| - 1] == id;
    assert Branches.Expands(s, st, [], p[|p| - 1]);
  }

  // ----- The client's side -----

  /** `put_block`. */
  method PutBlock(store: LmdbRepoStore, b: Block)
    requires Valid(store.State()) && b.Coherent()
    modifies store
    ensures Valid(store.State()) && store.main.Keys == old(store.main).Keys + {b.Id()}
    ensures forall x <- old(store.main) :: x in store.main && store.main[x] == old(store.main)[x]
  {
    hide Valid;
    PutKeeps(store.State(), b);
    var id := store.Put(b);
  }

  /** The client's `put_object`: every block of the new object is put, once each. */
  method PutObject(store: LmdbRepoStore, s: Suite, content: ObjectContent, deps: seq<Digest>, expiry: Option<Timestamp>,
                   maxObjectSize: nat, pubkey: Key, secret: Key) returns (id: Digest)
    requires Valid(store.State()) && s.Sound() && maxObjectSize + Sizes.HEADER < Sizes.USIZE_LIMIT
    modifies store
    ensures Valid(store.State())
    ensures var o := New(s, content, deps, expiry, maxObjectSize, pubkey, secret);
            && id == o.Id() && Contains(store.main, o.blocks)
            && store.main.Keys == old(store.main).Keys + IdSet(o.blocks)
    ensures forall x <- old(store.main) :: x in store.main && store.main[x] == old(store.main)[x]
  {
    hide Valid, New;
    var obj := ObjectOps.NewObject(s, content, deps, expiry, maxObjectSize, pubkey, secret);
    NewIsCoherent(s, content, deps, expiry, maxObjectSize, pubkey, secret);
    var blocks := obj.blocks;
    var done: set<Digest> := {};
    var i := 0;
    while i < |blocks|
      invariant 0 <= i <= |blocks|
      invariant Valid(store.State())
      invariant done == IdSet(blocks[..i]) && store.main.Keys == old(store.main).Keys + done
      invariant forall x <- old(store.main) :: x in store.main && store.main[x] == old(store.main)[x]
    {
      IdsSnoc(blocks, i);
      if blocks[i].Id() !in done {
        PutBlock(store, blocks[i]);
        done := done + {blocks[i].Id()};
      }
      i := i + 1;
    }
    assert blocks[..i] == blocks;
    forall b | b in blocks
      ensures b.Id() in store.main
    {
      var j :| 0 <= j < |blocks| && blocks[j] == b;
      assert Ids(blocks)[j] == b.Id();
    }
    id := obj.Id();
  }

  lemma NewIsCoherent(s: Suite, content: ObjectContent, deps: seq<Digest>, expiry: Option<Timestamp>,
                      blockSize: nat, pubkey: Key, secret: Key)
    requires s.Sound() && blockSize + Sizes.HEADER < Sizes.USIZE_LIMIT
    ensures AllCoherent(New(s, content, deps, expiry, blockSize, pubkey, secret).blocks)
  {
    hide NewBlocks, MakeDeps;
    Sizes.ValidValueSizeFits(blockSize);
    var valid := Sizes.ValidValueSize(blockSize);
    var convKey := s.convergenceKey(pubkey, secret);
    Loading.NewCoherent(s, s.encode(content), |deps|, MakeDeps(s, deps, valid, convKey), expiry, valid, convKey);
  }

  /** The hash map the client fills from a stream. */
  function ClientStore(stream: seq<Block>): Store {
    PutAll(map[], stream)
  }

  function PutAll(st: Store, stream: seq<Block>): Store
    decreases |stream|
  {
    if stream == [] then st else PutAll(Put(st, stream[0]), stream[1..])
  }

  lemma {:induction false} PutAllHolds(st: Store, stream: seq<Block>)
    requires Filed(st) && Keyless(st) && AllCoherent(stream)
    ensures var after := PutAll(st, stream);
            Filed(after) && Keyless(after) && forall x :: x in after <==> x in st || x in Ids(stream)
    decreases |stream|
  {
    if stream != [] {
      assert stream[0].Coherent();
      PutAllHolds(Put(st, stream[0]), stream[1..]);
      Loading.IdsCons(stream);
    }
  }

  /** The object the client makes of the stream it is sent. */
  function Rebuilt(s: Suite, stream: seq<Block>, id: Digest): Result<Object, Protocol.ProtocolError>
    requires AllCoherent(stream)
  {
    PutAllHolds(map[], stream);
    match Load(s, ClientStore(stream), id, None)
    case Ok(o) => Ok(o)
    case Err(MissingBlocks(_)) => Err(Protocol.MissingBlocks)
    case Err(_) => Err(Protocol.ObjectParseError)
  }

  /** The client tells missing blocks apart; anything else wrong with the object is a parse error. */
  lemma RebuiltErrors(s: Suite, stream: seq<Block>, id: Digest)
    requires AllCoherent(stream)
    ensures Filed(ClientStore(stream))
    ensures var r, loaded := Rebuilt(s, stream, id), Load(s, ClientStore(stream), id, None);
            && (r.Ok? <==> loaded.Ok?)
            && (r == Err(Protocol.MissingBlocks) <==> loaded.Err? && loaded.error.MissingBlocks?)
            && (r == Err(Protocol.ObjectParseError) <==> loaded.Err? && !loaded.error.MissingBlocks?)
  {
    hide Load;
    PutAllHolds(map[], stream);
  }

  /** The client's `get_object`, after the stream has been requested. */
  method RebuildObject(s: Suite, stream: seq<Block>, id: Digest) returns (r: Result<Object, Protocol.ProtocolError>)
    requires AllCoherent(stream)
    ensures r == Rebuilt(s, stream, id)
  {
    hide Load;
    PutAllHolds(map[], stream);
    var store := new HashStore.HashMapRepoStore();
    var i := 0;
    while i < |stream|
      invariant 0 <= i <= |stream|
      invariant PutAll(store.blocks, stream[i..]) == ClientStore(stream)
    {
      assert stream[i..][1..] == stream[i + 1..];
      var _ := store.Put(stream[i]);
      i := i + 1;
    }
    assert stream[i..] == [];
    var o := ObjectOps.LoadObject(s, store.blocks, id, None);
    match o {
      case Ok(obj) => r := Ok(obj);
      case Err(MissingBlocks(_)) => r := Err(Protocol.MissingBlocks);
      case Err(_) => r := Err(Protocol.ObjectParseError);
    }
  }

  /**
   * A client that stores blocks of an object the broker can load gets the object
   * exactly if everything it needs is among them: its own blocks, and those of
   * its dep-list object, if it has one, and of the dep-list object of that.
   */
  lemma ClientLoadsIff(s: Suite, st: Store, stream: seq<Block>, id: Digest)
    requires Filed(st) && Keyless(st) && Load(s, st, id, None).Ok?
    requires forall b <- stream :: b.Id() in st && st[b.Id()] == b
    ensures AllCoherent(stream) && Filed(ClientStore(stream))
    ensures var r := Load(s, ClientStore(stream), id, None);
            && (r.Ok? <==> forall x <- Needed(st, id) :: x in Ids(stream))
            && (r.Ok? ==> SameObject(r, Load(s, st, id, None)))
            && (r.Err? ==> r.error.MissingBlocks?)
  {
    hide Load, Layout, PutAll, Needed, SameObject;
    forall i | 0 <= i < |stream|
      ensures stream[i].Coherent()
    {
      assert stream[i] in stream;
    }
    PutAllHolds(map[], stream);
    var client := ClientStore(stream);
    forall x | x in client
      ensures x in st
    {
      var i :| 0 <= i < |stream| && Ids(stream)[i] == x;
      assert stream[i] in stream;
    }
    OnlyMissing(s, st, client, id, None);
    if Load(s, client, id, None).Ok? {
      NeedsAreStored(s, client, st, id, None);
    }
    if forall x <- Needed(st, id) :: x in Ids(stream) {
      LoadAgrees(s, st, client, id, None);
    }
  }

  /**
   * From the deduplicated stream of an object the client rebuilds the whole
   * block list, with its repetitions, and the deps, exactly if the blocks the
   * object needs are all its own: if its deps are a plain list, or the blocks of
   * its dep-list object happen to be among its own.
   */
  lemma StreamRebuilds(s: Suite, st: Store, id: Digest)
    requires Filed(st) && Keyless(st) && Load(s, st, id, None).Ok?
    ensures var stream := Dedup(Layout(st, [id]), {});
            && AllCoherent(stream) && id in st
            && var r := Rebuilt(s, stream, id);
               && (r.Ok? <==> forall x <- Needed(st, id) :: x in IdSet(Layout(st, [id])))
               && (r.Ok? ==> SameObject(Ok(r.value), Load(s, st, id, None)))
               && (r.Err? ==> r.error == Protocol.MissingBlocks)
               && (st[id].deps.ObjectIdList? ==> r.Ok?)
  {
    hide Load, Layout, Dedup, PutAll, SameObject;
    LoadedIds(s, st, id);
    var layout := Layout(st, [id]);
    DedupIds(layout, {});
    LayoutStored(st, [id]);
    ClientLoadsIff(s, st, Dedup(layout, {}), id);
    assert st[id].deps.ObjectIdList? ==> Needed(st, id) == IdSet(layout);
  }

  /**
   * A client that stores what `sync_branch` sends for some commits can load
   * one of them, as the broker does, exactly if all it needs are blocks of the
   * commits sent: always, if it lists its deps itself.
   */
  lemma SyncedCommitsLoad(s: Suite, st: Store, stream: seq<Block>, commits: set<Digest>, id: Digest)
    requires Filed(st) && Keyless(st) && id in commits && Load(s, st, id, None).Ok?
    requires forall x :: x in Ids(stream) <==> BlockOfAny(st, commits, x)
    requires forall b <- stream :: b.Id() in st && st[b.Id()] == b
    ensures AllCoherent(stream) && Filed(ClientStore(stream)) && id in st
    ensures var r := Load(s, ClientStore(stream), id, None);
            && (r.Ok? <==> forall x <- Needed(st, id) :: BlockOfAny(st, commits, x))
            && (r.Ok? ==> SameObject(r, Load(s, st, id, None)))
            && (r.Err? ==> r.error.MissingBlocks?)
            && (st[id].deps.ObjectIdList? ==> r.Ok?)
  {
    hide Load, Layout, PutAll, SameObject;
    LoadedIds(s, st, id);
    ClientLoadsIff(s, st, stream, id);
    assert st[id].deps.ObjectIdList? ==> Needed(st, id) == IdSet(Layout(st, [id]));
  }

  /**
   * The round trip over the broker: an object with at most eight deps that was
   * put block by block is got back whole, repeated blocks included, with its id
   * and deps; read with its root key, it has the content that was put.
   */
  lemma ClientRoundTrip(s: Suite, content: ObjectContent, deps: seq<Digest>, expiry: Option<Timestamp>,
                        blockSize: nat, pubkey: Key, secret: Key, db: Db)
    requires s.Sound() && blockSize + Sizes.HEADER < Sizes.USIZE_LIMIT && |deps| <= 8
    requires Valid(db) && Contains(db.main, New(s, content, deps, expiry, blockSize, pubkey, secret).blocks)
    ensures var o := New(s, content, deps, expiry, blockSize, pubkey, secret);
            && Filed(db.main) && Load(s, db.main, o.Id(), None).Ok?
            && var stream := Dedup(Layout(db.main, [o.Id()]), {});
               AllCoherent(stream)
               && var r := Rebuilt(s, stream, o.Id());
                  && r.Ok? && r.value.blocks != []
                  && Alike(r.value.blocks, o.blocks) && r.value.Id() == o.Id() && r.value.deps == deps
                  && Content(s, Object(WithRootKey(r.value.blocks, o.Key()), deps)) == Ok(content)
  {
    hide New, Valid, Load, LoadDeps, Dedup, Rebuilt, Layout, Content, PutAll;
    ValidIsFiled(db);
    var o := New(s, content, deps, expiry, blockSize, pubkey, secret);
    RoundTrips(s, content, deps, expiry, blockSize, pubkey, secret, db.main);
    PlainRoot(s, content, deps, expiry, blockSize, pubkey, secret, db.main);
    StreamRebuilds(s, db.main, o.Id());
    LoadedIds(s, db.main, o.Id());
    var r := Rebuilt(s, Dedup(Layout(db.main, [o.Id()]), {}), o.Id()).value;
    NewIsCoherent(s, content, deps, expiry, blockSize, pubkey, secret);
    KeyedContent(s, r.blocks, o, deps);
  }

  /**
   * Loaded without a key, the object is what was built, and its root carries
   * the deps it was given; it loads on the same condition as with its key.
   */
  lemma PlainRoot(s: Suite, content: ObjectContent, deps: seq<Digest>, expiry: Option<Timestamp>,
                  blockSize: nat, pubkey: Key, secret: Key, st: Store)
    requires s.Sound() && blockSize + Sizes.HEADER < Sizes.USIZE_LIMIT
    requires Filed(st) && Contains(st, New(s, content, deps, expiry, blockSize, pubkey, secret).blocks)
    ensures var o, r := New(s, content, deps, expiry, blockSize, pubkey, secret),
                        Load(s, st, New(s, content, deps, expiry, blockSize, pubkey, secret).Id(), None);
            && (r.Ok? <==> |deps| <= 8 || Contains(st, DepListOf(s, deps, blockSize, pubkey, secret)))
            && (r.Ok? ==> r.value.deps == deps)
            && Alike(Layout(st, [o.Id()]), o.blocks)
            && o.Id() in st && (st[o.Id()].deps.ObjectIdList? <==> |deps| <= 8)
  {
    hide NewBlocks, LoadDeps, Load, Layout, Missing, Contains, Filed, DepListBlocks, Alike, Sizes.ValidValueSize;
    Sizes.ValidValueSizeFits(blockSize);
    var o := New(s, content, deps, expiry, blockSize, pubkey, secret);
    var valid := Sizes.ValidValueSize(blockSize);
    var convKey := s.convergenceKey(pubkey, secret);
    var rootDeps := MakeDeps(s, deps, valid, convKey);
    LoadNewBlocks(s, s.encode(content), |deps|, rootDeps, expiry, valid, convKey, st);
    NewRootDeps(s, s.encode(content), |deps|, rootDeps, expiry, valid, convKey);
    LoadBlocks(s, st, o.blocks, None);
    DepsBack(s, deps, valid, convKey, st);
    assert o.Root().Id() in st by { RootContained(st, o.blocks); }
    LayoutEndsWith(st, o.Id());
    LastAlike(Layout(st, [o.Id()]), o.blocks);
  }

  lemma LastAlike(a: seq<Block>, b: seq<Block>)
    requires Alike(a, b) && b != []
    ensures a != [] && a[|a| - 1].Hash() == b[|b| - 1].Hash()
  {
  }

  lemma RootContained(st: Store, blocks: seq<Block>)
    requires blocks != [] && Contains(st, blocks)
    ensures blocks[|blocks| - 1].Id() in st
  {
  }

  /**
   * An input on which `get_object` fails: a one-block object with more than
   * eight deps, all of it stored. The broker loads it, but the client is sent
   * its one block only and misses those of the dep-list object.
   */
  lemma DepListNotStreamed(s: Suite, content: ObjectContent, deps: seq<Digest>, expiry: Option<Timestamp>,
                           blockSize: nat, pubkey: Key, secret: Key, st: Store)
    requires s.Sound() && blockSize + Sizes.HEADER < Sizes.USIZE_LIMIT && |deps| > 8
    requires Filed(st) && Keyless(st) && Contains(st, DepListOf(s, deps, blockSize, pubkey, secret))
    requires Contains(st, New(s, content, deps, expiry, blockSize, pubkey, secret).blocks)
    requires |New(s, content, deps, expiry, blockSize, pubkey, secret).blocks| == 1
    ensures var id := New(s, content, deps, expiry, blockSize, pubkey, secret).Id();
            && Load(s, st, id, None).Ok?
            && var stream := Dedup(Layout(st, [id]), {});
               AllCoherent(stream) && Rebuilt(s, stream, id) == Err(Protocol.MissingBlocks)
  {
    hide New, Load, Layout, Missing, DepListOf, Dedup, Rebuilt, Contains;
    var o := New(s, content, deps, expiry, blockSize, pubkey, secret);
    var id := o.Id();
    PlainRoot(s, content, deps, expiry, blockSize, pubkey, secret, st);
    StreamRebuilds(s, st, id);
    NeedsDepList(s, st, id);
  }

  /** The same after `sync_branch`, when such a commit is the only one sent. */
  lemma DepListNotSynced(s: Suite, content: ObjectContent, deps: seq<Digest>, expiry: Option<Timestamp>,
                         blockSize: nat, pubkey: Key, secret: Key, st: Store, stream: seq<Block>)
    requires s.Sound() && blockSize + Sizes.HEADER < Sizes.USIZE_LIMIT && |deps| > 8
    requires Filed(st) && Keyless(st) && Contains(st, DepListOf(s, deps, blockSize, pubkey, secret))
    requires Contains(st, New(s, content, deps, expiry, blockSize, pubkey, secret).blocks)
    requires |New(s, content, deps, expiry, blockSize, pubkey, secret).blocks| == 1
    requires forall x :: x in Ids(stream) <==> BlockOfAny(st, {New(s, content, deps, expiry, blockSize, pubkey, secret).Id()}, x)
    requires forall b <- stream :: b.Id() in st && st[b.Id()] == b
    ensures AllCoherent(stream) && Filed(ClientStore(stream))
    ensures Load(s, ClientStore(stream), New(s, content, deps, expiry, blockSize, pubkey, secret).Id(), None).Err?
  {
    hide New, Load, Layout, Missing, DepListOf, Contains;
    var id := New(s, content, deps, expiry, blockSize, pubkey, secret).Id();
    PlainRoot(s, content, deps, expiry, blockSize, pubkey, secret, st);
    SyncedCommitsLoad(s, st, stream, {id}, id);
    NeedsDepList(s, st, id);
    assert forall x :: BlockOfAny(st, {id}, x) ==> x in IdSet(Layout(st, [id]));
  }

  /** A one-block object with a dep-list object needs more than its own block. */
  lemma NeedsDepList(s: Suite, st: Store, id: Digest)
    requires Filed(st) && Load(s, st, id, None).Ok? && id in st && st[id].deps.DepListRef? && |Layout(st, [id])| == 1
    ensures exists x <- Needed(st, id) :: x !in IdSet(Layout(st, [id]))
  {
    hide Load, Layout;
    LoadedMeans(s, st, id, None);
    var list := st[id].deps.ref.id;
    assert st[id].Hash() == id;
    Loading.NotItself(id);
    LayoutEndsWith(st, id);
    assert list in st by { DepListStored(s, st, id); }
    LayoutEndsWith(st, list);
    var l := Layout(st, [list]);
    assert Ids(l)[|l| - 1] == st[list].Id() == list;
    assert list in Needed(st, list) && Needed(st, list) <= Needed(st, id);
    assert Ids(Layout(st, [id])) == [id];
    assert list in Needed(st, id) && list !in IdSet(Layout(st, [id]));
  }

  lemma DepListStored(s: Suite, st: Store, id: Digest)
    requires Filed(st) && Load(s, st, id, None).Ok? && id in st && st[id].deps.DepListRef?
    ensures st[id].deps.ref.id in st
  {
    LoadedMeans(s, st, id, None);
    LoadedMeans(s, st, st[id].deps.ref.id, Some(st[id].deps.ref.key));
  }

  /** Putting the root key on alike blocks gives an object with the same content. */
  lemma KeyedContent(s: Suite, blocks: seq<Block>, o: Object, deps: seq<Digest>)
    requires o.blocks != [] && Alike(blocks, o.blocks) && o.Key().Some?
    ensures Content(s, Object(WithRootKey(blocks, o.Key()), deps)) == Content(s, o)
  {
    hide Content;
    assert blocks != [];
    var n := Object(WithRootKey(blocks, o.Key()), deps);
    assert Alike(n.blocks, o.blocks);
    ContentAlike(s, n, o);
  }
}
