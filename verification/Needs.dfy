// What loading an object needs of a store, and that it needs nothing else.

module Needs {
  import opened Types
  import opened Objects
  import opened Storing

  /** The ids of the blocks an object loads, and of those its dep list loads. */
  function Needed(st: Store, id: Digest): set<Digest>
    requires Filed(st)
    decreases id
  {
    (set x | x in Ids(Layout(st, [id]))) +
    if id in st && st[id].deps.DepListRef? then
      assert st[id].Hash() == id;
      Needed(st, st[id].deps.ref.id)
    else {}
  }

  /** Every block of a layout is stored under its id, as it is. */
  lemma {:induction false} LayoutStored(st: Store, ids: seq<Digest>)
    requires Filed(st)
    ensures forall b <- Layout(st, ids) :: b.Id() in st && st[b.Id()] == b
    decreases MaxHeight(ids)
  {
    FoundStored(st, ids);
    BelowIsLower(st, ids);
    if Below(st, ids) != [] {
      LayoutStored(st, Below(st, ids));
    }
  }

  lemma {:induction false} FoundStored(st: Store, ids: seq<Digest>)
    requires Filed(st)
    ensures forall b <- Found(st, ids) :: b.Id() in st && st[b.Id()] == b && b.Id() in ids
  {
    if ids != [] {
      FoundStored(st, ids[1..]);
    }
  }

  lemma {:induction false} FoundAgrees(st: Store, other: Store, ids: seq<Digest>)
    requires Filed(st) && Filed(other)
    requires Absent(st, ids) == [] && forall b <- Found(st, ids) :: b.Id() in other
    ensures Absent(other, ids) == [] && Alike(Found(other, ids), Found(st, ids))
  {
    if ids != [] {
      var found := Found(st, ids);
      assert ids[0] in st;
      assert found == [st[ids[0]]] + Found(st, ids[1..]);
      assert st[ids[0]] in found && st[ids[0]].Id() == ids[0];
      FoundAgrees(st, other, ids[1..]);
    }
  }

  /** A complete layout comes out alike in every store that holds its blocks. */
  lemma {:induction false} LayoutAgrees(st: Store, other: Store, ids: seq<Digest>)
    requires Filed(st) && Filed(other)
    requires Missing(st, ids) == [] && forall b <- Layout(st, ids) :: b.Id() in other
    ensures Missing(other, ids) == [] && Alike(Layout(other, ids), Layout(st, ids))
    decreases MaxHeight(ids)
  {
    MissingNone(st, ids);
    MissingNone(other, ids);
    BelowIsLower(st, ids);
    assert forall b <- Found(st, ids) :: b in Layout(st, ids);
    FoundAgrees(st, other, ids);
    ChildrenAlike(Found(other, ids), Found(st, ids));
    var below := Below(st, ids);
    hide Found, Absent, Missing, Children;
    if below != [] {
      assert forall b <- Layout(st, below) :: b in Layout(st, ids);
      LayoutAgrees(st, other, below);
      AlikeConcat(Layout(other, below), Layout(st, below), Found(other, ids), Found(st, ids));
    } else {
      assert [] + Found(st, ids) == Found(st, ids) && [] + Found(other, ids) == Found(other, ids);
    }
  }

  lemma LayoutIds(st: Store, other: Store, id: Digest)
    requires Filed(st) && Filed(other) && Missing(st, [id]) == []
    requires forall x <- Ids(Layout(st, [id])) :: x in other
    ensures Missing(other, [id]) == [] && Alike(Layout(other, [id]), Layout(st, [id]))
    ensures Ids(Layout(other, [id])) == Ids(Layout(st, [id]))
  {
    hide Layout, Missing;
    forall b | b in Layout(st, [id])
      ensures b.Id() in other
    {
      var l := Layout(st, [id]);
      var i :| 0 <= i < |l| && l[i] == b;
      assert Ids(l)[i] == b.Id();
    }
    LayoutAgrees(st, other, [id]);
  }

  /** Same outcome from two stores: the same error, or alike blocks under the same root key, and the same deps. */
  predicate SameObject(a: Result<Object, ParseError>, b: Result<Object, ParseError>) {
    match (a, b)
    case (Err(e), Err(f)) => e == f
    case (Ok(x), Ok(y)) =>
      Alike(x.blocks, y.blocks) && x.deps == y.deps
      && (x.blocks != [] && y.blocks != [] ==> x.Root().key == y.Root().key)
    case _ => false
  }

  /** Blocks come out of this store without keys. */
  ghost predicate Keyless(st: Store) {
    forall id <- st :: st[id].key == None
  }

  /** An object that loads, loads alike from every store that holds what it needs. */
  lemma {:induction false} LoadAgrees(s: Suite, st: Store, other: Store, id: Digest, key: Option<Key>)
    requires Filed(st) && Filed(other) && Keyless(st) && Keyless(other)
    requires Load(s, st, id, key).Ok?
    requires forall x <- Needed(st, id) :: x in other
    ensures Load(s, other, id, key).Ok?
    ensures SameObject(Load(s, other, id, key), Load(s, st, id, key))
    decreases id, 1
  {
    hide Layout, Missing, LoadDeps, Content;
    LayoutIds(st, other, id);
    assert id in st by { if id !in st { MissingRoot(st, id); } }
    assert id in other by { if id !in other { MissingRoot(other, id); } }
    LayoutEndsWith(st, id);
    LayoutEndsWith(other, id);
    assert st[id].Hash() == id && other[id].Hash() == id;
    assert st[id].deps == other[id].deps;
    DepsAgree(s, st, other, st[id].deps, id);
    LayoutCoherent(st, [id]);
    LayoutCoherent(other, [id]);
    RootKeyAlike(Layout(st, [id]), key);
    RootKeyAlike(Layout(other, [id]), key);
  }

  lemma {:induction false} DepsAgree(s: Suite, st: Store, other: Store, deps: ObjectDeps, id: Digest)
    requires Filed(st) && Filed(other) && Keyless(st) && Keyless(other)
    requires id in st && st[id].deps == deps
    requires LoadDeps(s, st, deps).Ok?
    requires forall x <- Needed(st, id) :: x in other
    ensures LoadDeps(s, other, deps) == LoadDeps(s, st, deps)
    decreases id, 0
  {
    hide Layout, Load, Content;
    assert st[id].Hash() == id;
    match deps
    case ObjectIdList(_) =>
    case DepListRef(ref) =>
      assert id.deps.ref.id == ref.id;
      LoadAgrees(s, st, other, ref.id, Some(ref.key));
      ContentAlike(s, Load(s, other, ref.id, Some(ref.key)).value, Load(s, st, ref.id, Some(ref.key)).value);
  }

  /** A loaded object's needs are all stored; a store with more blocks sees the same needs. */
  lemma {:induction false} NeedsAreStored(s: Suite, st: Store, more: Store, id: Digest, key: Option<Key>)
    requires Filed(st) && Filed(more) && (forall x <- st :: x in more)
    requires Load(s, st, id, key).Ok?
    ensures Needed(more, id) == Needed(st, id)
    ensures forall x <- Needed(more, id) :: x in st
    decreases id
  {
    hide Layout, Missing, Load;
    assert Missing(st, [id]) == [] && id in st && (st[id].deps.DepListRef? ==> Load(s, st, st[id].deps.ref.id, Some(st[id].deps.ref.key)).Ok?) by {
      LoadedMeans(s, st, id, key);
    }
    var layout := Layout(st, [id]);
    forall x | x in Ids(layout)
      ensures x in st
    {
      LayoutStored(st, [id]);
      var i :| 0 <= i < |layout| && Ids(layout)[i] == x;
      assert layout[i] in layout;
    }
    LayoutIds(st, more, id);
    assert st[id].Hash() == id && more[id].Hash() == id;
    assert st[id].deps == more[id].deps;
    if st[id].deps.DepListRef? {
      assert id.deps.ref.id == st[id].deps.ref.id;
      NeedsAreStored(s, st, more, st[id].deps.ref.id, Some(st[id].deps.ref.key));
    }
  }

  lemma LoadedMeans(s: Suite, st: Store, id: Digest, key: Option<Key>)
    requires Filed(st) && Load(s, st, id, key).Ok?
    ensures Missing(st, [id]) == [] && id in st
    ensures st[id].deps.DepListRef? ==> Load(s, st, st[id].deps.ref.id, Some(st[id].deps.ref.key)).Ok?
  {
    hide Content;
    assert id in st by { if id !in st { MissingRoot(st, id); } }
  }

  /** From a part of a store that loads an object, it loads as well, or blocks are missing: nothing else goes wrong. */
  lemma {:induction false} OnlyMissing(s: Suite, st: Store, part: Store, id: Digest, key: Option<Key>)
    requires Filed(st) && Filed(part) && Keyless(st) && Keyless(part) && (forall x <- part :: x in st)
    requires Load(s, st, id, key).Ok?
    ensures var r := Load(s, part, id, key); r.Err? ==> r.error.MissingBlocks?
    decreases id
  {
    hide Layout, Missing, Content, Needed;
    LoadedMeans(s, st, id, key);
    if Missing(part, [id]) == [] {
      assert id in part by { if id !in part { MissingRoot(part, id); } }
      assert st[id].Hash() == id && part[id].Hash() == id;
      var deps := st[id].deps;
      assert part[id].deps == deps;
      if deps.DepListRef? {
        var ref := deps.ref;
        assert id.deps.ref.id == ref.id;
        OnlyMissing(s, st, part, ref.id, Some(ref.key));
        if Load(s, part, ref.id, Some(ref.key)).Ok? {
          hide Load;
          NeedsAreStored(s, part, st, ref.id, Some(ref.key));
          LoadAgrees(s, st, part, ref.id, Some(ref.key));
          ContentAlike(s, Load(s, part, ref.id, Some(ref.key)).value, Load(s, st, ref.id, Some(ref.key)).value);
        }
      }
    }
  }
}
