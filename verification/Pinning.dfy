// Pinned objects survive eviction; unpinned parts of them may not.

module Pinning {
  import opened Types
  import opened Objects
  import opened RepoStore
  import opened StoreInvariants
  import opened Needs
  import Bare

  /** The main table answers as a store. */
  lemma ValidIsFiled(db: Db)
    requires Valid(db)
    ensures Filed(db.main) && Keyless(db.main)
  {
  }

  ghost predicate Pinned(db: Db, id: Digest) {
    id in db.main && id in db.meta && db.meta[id].pin
  }

  /** The operation neither deletes, unpins nor expires any of `ids`. */
  ghost predicate Spares(db: Db, op: Op, ids: set<Digest>) {
    match op
    case OpDel(id) => id !in ids
    case OpSetPin(id, add) => add || id !in ids
    case OpRemoveExpired(now) => forall id <- ids :: id !in Expired(db, now)
    case _ => true
  }

  ghost predicate AllPinned(db: Db, ids: set<Digest>) {
    forall id <- ids :: Pinned(db, id)
  }

  lemma {:induction false} DelAllSpares(db: Db, ids: seq<Digest>, x: Digest)
    requires Valid(db) && Distinct(ids) && AllStored(db, ids) && Pinned(db, x) && x !in ids
    ensures Pinned(DelAll(db, ids).1, x)
    decreases |ids|
  {
    hide DelStep, Held, Valid;
    if ids != [] {
      DelIsExact(db, ids[0]);
      assert ids[0] in db.main;
      if !Held(db, ids[0]) {
        WithoutKeeps(db, {ids[0]});
        WithoutRest(db, ids);
        DelAllSpares(Without(db, {ids[0]}), ids[1..], x);
      }
    }
  }

  /** What is pinned stays stored and pinned through every operation that spares it. */
  lemma StepSpares(db: Db, op: Op, panicked: bool, after: Db, x: Digest)
    requires Valid(db) && Disciplined(db, op) && Step(db, op, panicked, after)
    requires Pinned(db, x) && Spares(db, op, {x})
    ensures Pinned(after, x)
  {
    hide Valid, GetStep, DelStep, SetPinStep, PutStep, Expired;
    match op
    case OpGet(id, now) => GetKeeps(db, id, now);
    case OpPut(block) => PutKeeps(db, block);
    case OpDel(id) => DelIsExact(db, id);
    case OpSetPin(id, add) => SetPinKeeps(db, id, add);
    case OpSynced(id, when) =>
    case OpRemoveExpired(now) =>
      var order :| Descending(db.expiry, now, order) && DelAll(db, Entries(order)) == (!panicked, after);
      ExpiredAreRead(db, now, order);
      assert x !in SetOf(Entries(order));
      DelAllSpares(db, Entries(order), x);
    case OpRemoveLeastUsed(size) =>
      EvictionSpares(db, size, panicked, after, x);
  }

  lemma EvictionSpares(db: Db, size: nat, panicked: bool, after: Db, x: Digest)
    requires Valid(db) && Step(db, OpRemoveLeastUsed(size), panicked, after) && Pinned(db, x)
    ensures Pinned(after, x)
  {
    var order: seq<(Timestamp, Digest)> :| Ascending(db.lru, order) &&
      var (r, next) := DelUntil(db, Entries(order), size, 0); after == next && (panicked <==> r.Panic?);
    hide Valid, DelUntil, Ascending, Takes, Without, Pinned, SizesOf;
    var n := RemoveLeastUsedIsExact(db, size, order);
    TakesAtMost(db, Entries(order), size, n);
    var ids := Entries(order)[..n];
    forall i | 0 <= i < |ids|
      ensures ids[i] != x
    {
      assert Evictable(db, order[i].1);
      PinnedStays(db, order[i].1, x);
    }
    WithoutOthers(db, SetOf(ids), x);
  }

  lemma PinnedStays(db: Db, id: Digest, x: Digest)
    requires Evictable(db, id) && Pinned(db, x)
    ensures id != x
  {
  }

  lemma WithoutOthers(db: Db, gone: set<Digest>, x: Digest)
    requires Pinned(db, x) && x !in gone
    ensures Pinned(Without(db, gone), x)
  {
  }

  /** A run of operations that spare `ids`. */
  ghost predicate GentleRun(dbs: seq<Db>, ops: seq<Op>, panics: seq<bool>, ids: set<Digest>) {
    Run(dbs, ops, panics) && forall i :: 0 <= i < |ops| ==> Spares(dbs[i], ops[i], ids)
  }

  lemma {:induction false} GentleRunKeeps(dbs: seq<Db>, ops: seq<Op>, panics: seq<bool>, ids: set<Digest>)
    requires GentleRun(dbs, ops, panics, ids) && Valid(dbs[0]) && AllPinned(dbs[0], ids)
    ensures Valid(dbs[|ops|]) && AllPinned(dbs[|ops|], ids)
    decreases |ops|
  {
    hide Valid, Disciplined, Step, Spares, Pinned;
    if ops != [] {
      StepKeeps(dbs[0], ops[0], panics[0], dbs[1]);
      forall x | x in ids
        ensures Pinned(dbs[1], x)
      {
        SparesOne(dbs[0], ops[0], ids, x);
        StepSpares(dbs[0], ops[0], panics[0], dbs[1], x);
      }
      var later, ops', panics' := dbs[1..], ops[1..], panics[1..];
      forall i | 0 <= i < |ops'|
        ensures Disciplined(later[i], ops'[i]) && Step(later[i], ops'[i], panics'[i], later[i + 1]) && Spares(later[i], ops'[i], ids)
      {
        assert later[i] == dbs[i + 1] && ops'[i] == ops[i + 1] && panics'[i] == panics[i + 1] && later[i + 1] == dbs[i + 2];
      }
      GentleRunKeeps(later, ops', panics', ids);
    }
  }

  lemma SparesOne(db: Db, op: Op, ids: set<Digest>, x: Digest)
    requires Spares(db, op, ids) && x in ids
    ensures Spares(db, op, {x})
  {
    hide Expired;
  }

  /** The object loads, and as it did. */
  ghost predicate LoadsLike(s: Suite, before: Db, after: Db, id: Digest, key: Option<Key>) {
    && Valid(before) && Valid(after)
    && Filed(before.main) && Filed(after.main)
    && Load(s, after.main, id, key).Ok?
    && SameObject(Load(s, after.main, id, key), Load(s, before.main, id, key))
  }

  /**
   * An object all of whose needs are pinned loads alike after every run that
   * does not delete, unpin or expire them, whatever is evicted.
   */
  lemma PinnedSurvives(s: Suite, id: Digest, key: Option<Key>, dbs: seq<Db>, ops: seq<Op>, panics: seq<bool>)
    requires dbs != [] && Valid(dbs[0]) && Filed(dbs[0].main)
    requires Load(s, dbs[0].main, id, key).Ok? && AllPinned(dbs[0], Needed(dbs[0].main, id))
    requires GentleRun(dbs, ops, panics, Needed(dbs[0].main, id))
    ensures LoadsLike(s, dbs[0], dbs[|ops|], id, key)
  {
    hide Load, Needed, Valid, Step, Disciplined, Spares;
    var needed := Needed(dbs[0].main, id);
    GentleRunKeeps(dbs, ops, panics, needed);
    ValidIsFiled(dbs[0]);
    ValidIsFiled(dbs[|ops|]);
    assert forall x <- needed :: Pinned(dbs[|ops|], x);
    LoadAgrees(s, dbs[0].main, dbs[|ops|].main, id, key);
  }

  // ----- Without the pin -----

  lemma {:induction false} OrderExists(index: Index) returns (order: seq<(Timestamp, Digest)>)
    ensures Ascending(index, order)
  {
    order := [];
    if index != {} {
      var e := EarliestExists(index);
      var rest := OrderExists(index - {e});
      order := [e] + rest;
      forall f ensures f in order <==> f in index {}
      forall i, j | 0 <= i < j < |order|
        ensures order[i] != order[j] && order[i].0 <= order[j].0
      {
        assert order[j] == rest[j - 1] && rest[j - 1] in rest;
        if i > 0 { assert order[i] == rest[i - 1]; }
      }
    }
  }

  /** Asked for more than there is, eviction empties the LRU. */
  lemma EvictEverything(db: Db) returns (size: nat, after: Db)
    requires Valid(db)
    ensures Step(db, OpRemoveLeastUsed(size), false, after)
    ensures forall x :: x in after.main ==> x in db.main && !Evictable(db, x) && after.main[x] == db.main[x]
  {
    hide Valid, DelUntil, SizesOf, Takes, Ascending, Without, Evictable, Bare.BlockSize;
    var order := OrderExists(db.lru);
    var ids := Entries(order);
    size := SizesOf(db, ids) + 1;
    after := DelUntil(db, ids, size, 0).1;
    var n := RemoveLeastUsedIsExact(db, size, order);
    TakesAtMost(db, ids, size, n);
    SizesMonotone(db, ids, n);
    NoneEvictable(db, after, SetOf(ids[..n]));
  }

  lemma TakesAtMost(db: Db, ids: seq<Digest>, size: nat, n: nat)
    requires Takes(db, ids, size, 0, n)
    ensures n <= |ids|
  {
  }

  /** What an eviction that empties the LRU leaves could not be evicted. */
  lemma NoneEvictable(db: Db, after: Db, gone: set<Digest>)
    requires Valid(db) && after == Without(db, gone) && after.lru == {}
    ensures forall x <- after.main :: x in db.main && !Evictable(db, x) && after.main[x] == db.main[x]
  {
    forall x | x in after.main
      ensures !Evictable(db, x)
    {
      var t := if x in db.meta then db.meta[x].lastUsed else 0;
      assert (t, x) !in after.lru && x !in gone;
      assert (t, x) !in db.lru;
    }
  }

  /**
   * If anything an object needs is not pinned, then it may be lost: once it is
   * declared synced and space is reclaimed, the object no longer loads. No
   * operation of that run deletes, unpins or expires a block of it.
   */
  lemma UnpinnedMayBeLost(s: Suite, db: Db, id: Digest, key: Option<Key>, x: Digest)
    returns (dbs: seq<Db>, ops: seq<Op>, panics: seq<bool>)
    requires Valid(db) && Filed(db.main) && Load(s, db.main, id, key).Ok?
    requires x in Needed(db.main, id) && !Pinned(db, x)
    ensures GentleRun(dbs, ops, panics, Needed(db.main, id)) && dbs[0] == db
    ensures Filed(dbs[|ops|].main) && Load(s, dbs[|ops|].main, id, key).Err?
  {
    hide Load, Needed, Valid, Filed;
    ValidIsFiled(db);
    NeedsAreStored(s, db.main, db.main, id, key);
    assert x in db.main;
    var synced := SyncedStep(db, x, 1);
    SyncedKeepsIff(db, x, 1);
    assert Evictable(synced, x);
    var size, after := EvictEverything(synced);
    dbs, ops, panics := [db, synced, after], [OpSynced(x, 1), OpRemoveLeastUsed(size)], [false, false];
    TwoSteps(db, synced, after, x, size);
    RunKeeps(dbs, ops, panics);
    assert |ops| == 2 && Valid(dbs[2]);
    ValidIsFiled(after);
    if Load(s, after.main, id, key).Ok? {
      NeedsAreStored(s, after.main, db.main, id, key);
    }
  }

  lemma TwoSteps(db: Db, synced: Db, after: Db, x: Digest, size: nat)
    requires Step(db, OpSynced(x, 1), false, synced) && Disciplined(db, OpSynced(x, 1))
    requires Step(synced, OpRemoveLeastUsed(size), false, after)
    ensures Run([db, synced, after], [OpSynced(x, 1), OpRemoveLeastUsed(size)], [false, false])
  {
    hide Step, Disciplined;
    var dbs, ops := [db, synced, after], [OpSynced(x, 1), OpRemoveLeastUsed(size)];
    assert Disciplined(synced, ops[1]) by { assert ops[1].OpRemoveLeastUsed?; DisciplinedEviction(synced, size); }
    forall i | 0 <= i < |ops|
      ensures Disciplined(dbs[i], ops[i]) && Step(dbs[i], ops[i], [false, false][i], dbs[i + 1])
    {
      assert i == 0 || i == 1;
    }
  }

  lemma DisciplinedEviction(db: Db, size: nat)
    ensures Disciplined(db, OpRemoveLeastUsed(size))
  {
  }

  /** It survives every such run exactly when everything it needs is pinned. */
  lemma SurvivesIffPinned(s: Suite, db: Db, id: Digest, key: Option<Key>)
    requires Valid(db) && Filed(db.main) && Load(s, db.main, id, key).Ok?
    ensures AllPinned(db, Needed(db.main, id)) <==>
            forall dbs, ops, panics ::
              GentleRun(dbs, ops, panics, Needed(db.main, id)) && dbs[0] == db ==> LoadsLike(s, db, dbs[|ops|], id, key)
  {
    hide Load, Needed, Valid, Pinned;
    var needed := Needed(db.main, id);
    if AllPinned(db, needed) {
      forall dbs, ops, panics | GentleRun(dbs, ops, panics, needed) && dbs[0] == db
        ensures LoadsLike(s, db, dbs[|ops|], id, key)
      {
        PinnedSurvives(s, id, key, dbs, ops, panics);
      }
    } else {
      var x :| x in needed && !Pinned(db, x);
      var dbs, ops, panics := UnpinnedMayBeLost(s, db, id, key, x);
      assert !LoadsLike(s, db, dbs[|ops|], id, key);
    }
  }
}
