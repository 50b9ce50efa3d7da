// When the store panics: on blocks both synced and pinned, and after
// `has_been_synced` was called for a block not stored, or at time 0.

module Panics {
  import opened Types
  import opened RepoStore
  import opened StoreInvariants
  import Bare

  // ----- Synced, pinned and expired -----

  /**
   * A block that expires, declared synced and then pinned, makes every
   * `remove_expired` from its expiry on panic, and every `del` of it.
   */
  lemma PinnedExpiryPanics(b: Block, when: Timestamp, now: Timestamp) returns (db: Db)
    requires b.Coherent() && b.expiry.Some? && b.expiry.value <= now && when > 0
    ensures db == SetPinStep(SyncedStep(PutStep(EMPTY, b), b.Id(), when), b.Id(), true).1 && Valid(db)
    ensures DelStep(db, b.Id()) == (Panic, db)
    ensures forall panicked, after :: Step(db, OpRemoveExpired(now), panicked, after) ==> panicked
  {
    var id, put := b.Id(), PutStep(EMPTY, b);
    var synced := SyncedStep(put, id, when);
    db := SetPinStep(synced, id, true).1;
    EmptyIsValid();
    PutKeeps(EMPTY, b);
    SyncedKeepsIff(put, id, when);
    SetPinKeeps(synced, id, true);
    assert db.main == put.main && Held(db, id);
    DelIsExact(db, id);
    hide Valid, DelStep;
    assert id in Expired(db, now);
    forall panicked, after | Step(db, OpRemoveExpired(now), panicked, after)
      ensures panicked
    {
      RemoveExpiredIsExact(db, now, panicked, after);
    }
  }

  // ----- When an eviction panics, whatever the tables -----

  /** Deleting `id` would find all its entries. */
  predicate Removable(db: Db, id: Digest) {
    id in db.main ==>
      && (id in db.meta && db.meta[id].lastUsed != 0 ==> (db.meta[id].lastUsed, id) in db.lru)
      && (db.main[id].expiry.Some? ==> (db.main[id].expiry.value, id) in db.expiry)
  }

  ghost predicate AllRemovable(db: Db, ids: seq<Digest>) {
    forall i :: 0 <= i < |ids| ==> Removable(db, ids[i])
  }

  /** An eviction of `size` bytes, `total` of them gone, comes to the `k`th of `ids`. */
  ghost predicate ComesTo(db: Db, ids: seq<Digest>, size: nat, total: nat, k: nat) {
    k < |ids| && (k == 0 || total + SizesOf(db, ids[..k]) < size)
  }

  ghost predicate ComesToAbsent(db: Db, ids: seq<Digest>, size: nat, total: nat) {
    exists k :: 0 <= k < |ids| && ids[k] !in db.main && ComesTo(db, ids, size, total, k)
  }

  lemma DelRemoves(db: Db, id: Digest)
    requires Removable(db, id)
    ensures var (r, next) := DelStep(db, id);
            if id in db.main then
              && r == Done((db.main[id], Bare.BlockSize(db.main[id])))
              && next.main == db.main - {id} && next.meta == db.meta - {id}
              && (forall e <- next.lru :: e in db.lru)
              && (forall e <- db.lru :: e.1 != id ==> e in next.lru)
              && (forall e <- db.expiry :: e.1 != id ==> e in next.expiry)
            else r == NotFound && next == db
  {
    hide Bare.BlockSize;
  }

  lemma StillRemovable(db: Db, ids: seq<Digest>)
    requires ids != [] && Distinct(ids) && AllRemovable(db, ids) && ids[0] in db.main
    ensures AllRemovable(DelStep(db, ids[0]).1, ids[1..])
  {
    var next := DelStep(db, ids[0]).1;
    DelRemoves(db, ids[0]);
    hide DelStep;
    forall i | 0 <= i < |ids[1..]|
      ensures Removable(next, ids[1..][i])
    {
      assert ids[1..][i] == ids[i + 1] && Removable(db, ids[i + 1]);
    }
  }

  lemma {:induction false} SizesFromMain(a: Db, b: Db, ids: seq<Digest>, gone: Digest)
    requires b.main == a.main - {gone} && gone !in ids
    ensures SizesOf(b, ids) == SizesOf(a, ids)
  {
    hide Bare.BlockSize;
    if ids != [] {
      SizesFromMain(a, b, ids[1..], gone);
    }
  }

  /** Coming to a later id, before and after the first has been deleted. */
  lemma ComesOneFurther(db: Db, next: Db, ids: seq<Digest>, size: nat, total: nat, k: nat)
    requires Distinct(ids) && 0 < k < |ids| && next.main == db.main - {ids[0]}
    ensures ComesTo(db, ids, size, total, k) <==>
            total + SizesOf(db, [ids[0]]) < size && ComesTo(next, ids[1..], size, total + SizesOf(db, [ids[0]]), k - 1)
  {
    SizesPrefix(db, ids, k);
    SizesFromMain(db, next, ids[1..][..k - 1], ids[0]);
    hide SizesOf;
  }

  /**
   * An eviction panics exactly when it comes to an id of the LRU that the main
   * table lacks, if the other ids it comes to can be deleted.
   */
  lemma {:induction false} EvictionPanicsIff(db: Db, ids: seq<Digest>, size: nat, total: nat)
    requires Distinct(ids) && AllRemovable(db, ids)
    ensures DelUntil(db, ids, size, total).0.Panic? <==> ComesToAbsent(db, ids, size, total)
    ensures !DelUntil(db, ids, size, total).0.NotFound?
    decreases |ids|
  {
    hide DelStep, Bare.BlockSize, Removable, ComesTo;
    if ids != [] {
      var id := ids[0];
      assert Removable(db, id);
      DelRemoves(db, id);
      assert ComesTo(db, ids, size, total, 0) by { ComesToFirst(db, ids, size, total); }
      if id in db.main {
        var next, gone := DelStep(db, id).1, SizesOf(db, [id]);
        assert [id][1..] == [] && gone == Bare.BlockSize(db.main[id]) + SizesOf(db, []);
        forall k | 0 < k < |ids|
          ensures ids[k] == ids[1..][k - 1] && (ids[k] in next.main <==> ids[k] in db.main)
          ensures ComesTo(db, ids, size, total, k) <==> total + gone < size && ComesTo(next, ids[1..], size, total + gone, k - 1)
        {
          ComesOneFurther(db, next, ids, size, total, k);
        }
        if total + gone < size {
          StillRemovable(db, ids);
          EvictionPanicsIff(next, ids[1..], size, total + gone);
          AbsentFurther(db, next, ids, size, total, gone);
        }
      }
    }
  }

  lemma ComesToFirst(db: Db, ids: seq<Digest>, size: nat, total: nat)
    requires ids != []
    ensures ComesTo(db, ids, size, total, 0)
  {
  }

  lemma AbsentFurther(db: Db, next: Db, ids: seq<Digest>, size: nat, total: nat, gone: nat)
    requires ids != [] && ids[0] in db.main
    requires forall k :: 0 < k < |ids| ==> ids[k] == ids[1..][k - 1] && (ids[k] in next.main <==> ids[k] in db.main)
    requires forall k :: 0 < k < |ids| ==>
               (ComesTo(db, ids, size, total, k) <==> ComesTo(next, ids[1..], size, total + gone, k - 1))
    ensures ComesToAbsent(db, ids, size, total) <==> ComesToAbsent(next, ids[1..], size, total + gone)
  {
    hide ComesTo;
    if ComesToAbsent(next, ids[1..], size, total + gone) {
      var k :| 0 <= k < |ids[1..]| && ids[1..][k] !in next.main && ComesTo(next, ids[1..], size, total + gone, k);
      assert ids[k + 1] == ids[1..][k] && ComesTo(db, ids, size, total, k + 1);
    }
  }

  // ----- After `has_been_synced` -----

  /** The call puts a new entry for `id` into the LRU: it was not synced yet, and is not pinned. */
  predicate Enters(db: Db, id: Digest) {
    id in db.meta ==> !db.meta[id].synced && !db.meta[id].pin
  }

  /** Whatever the call was, the ids the LRU then lists are distinct and can be deleted if they are stored. */
  lemma SyncedOrder(db: Db, id: Digest, when: Timestamp, order: seq<(Timestamp, Digest)>)
    requires Valid(db) && Ascending(SyncedStep(db, id, when).lru, order)
    ensures Distinct(Entries(order)) && AllRemovable(SyncedStep(db, id, when), Entries(order))
    ensures forall i :: 0 <= i < |order| && order[i].1 != id ==> order[i].0 > 0 && order[i].1 in db.main
    ensures forall i :: 0 <= i < |order| && order[i].1 == id ==> (id in db.meta && db.meta[id].synced) || order[i].0 == when
  {
    var after := SyncedStep(db, id, when);
    forall i | 0 <= i < |order|
      ensures order[i] in after.lru && order[i] == (order[i].0, order[i].1)
    {
      assert order[i] in order;
    }
    SyncedEntries(db, id, when);
    hide Valid, SyncedStep, Removable;
  }

  lemma SyncedEntries(db: Db, id: Digest, when: Timestamp)
    requires Valid(db)
    ensures var after := SyncedStep(db, id, when);
            && (forall t: Timestamp, x :: (t, x) in after.lru ==> Removable(after, x))
            && (forall t: Timestamp, x :: (t, x) in after.lru && x != id ==> t > 0 && x in db.main)
            && (forall t: Timestamp :: (t, id) in after.lru ==> (id in db.meta && db.meta[id].synced) || t == when)
            && (forall t: Timestamp, u: Timestamp, x :: (t, x) in after.lru && (u, x) in after.lru ==> t == u)
  {
  }

  /**
   * Declared synced though it is not stored, and not pinned: the next eviction
   * panics exactly when it comes to the entry, so always if it is asked for
   * more than everything older.
   */
  lemma SyncedUnstoredPanics(db: Db, id: Digest, when: Timestamp, size: nat, order: seq<(Timestamp, Digest)>, k: nat)
    requires Valid(db) && id !in db.main && Enters(db, id)
    requires var after := SyncedStep(db, id, when);
             Ascending(after.lru, order) && k < |order| && order[k] == (when, id)
    ensures var after := SyncedStep(db, id, when);
            DelUntil(after, Entries(order), size, 0).0.Panic? <==> ComesTo(after, Entries(order), size, 0, k)
  {
    var after, ids := SyncedStep(db, id, when), Entries(order);
    SyncedOrder(db, id, when, order);
    hide DelUntil, ComesTo, Valid, Ascending;
    EvictionPanicsIff(after, ids, size, 0);
    forall j | 0 <= j < |ids| && ids[j] !in after.main
      ensures j == k
    {
      assert order[j].1 == id && ids[k] == id;
    }
    assert ids[k] !in after.main;
  }

  /** Declared synced while pinned, stored or not: the tables may be out of step, but the next eviction does not panic. */
  lemma SyncedPinnedEvicts(db: Db, id: Digest, when: Timestamp, size: nat, order: seq<(Timestamp, Digest)>)
    requires Valid(db) && id in db.meta && db.meta[id].pin && Ascending(SyncedStep(db, id, when).lru, order)
    ensures !DelUntil(SyncedStep(db, id, when), Entries(order), size, 0).0.Panic?
  {
    var after, ids := SyncedStep(db, id, when), Entries(order);
    SyncedOrder(db, id, when, order);
    forall i | 0 <= i < |ids|
      ensures ids[i] in after.main
    {
      assert order[i] in order && order[i] == (order[i].0, order[i].1);
    }
    hide DelUntil, Valid, Ascending;
    EvictionPanicsIff(after, ids, size, 0);
  }

  /** Unpinning it then has the same outcome as if it had been unpinned first. */
  lemma SyncedThenUnpinned(db: Db, id: Digest, when: Timestamp)
    requires Valid(db) && id in db.meta && db.meta[id].pin && !db.meta[id].synced
    ensures SetPinStep(SyncedStep(db, id, when), id, false) == (Done(()), SyncedStep(SetPinStep(db, id, false).1, id, when))
    ensures Enters(SetPinStep(db, id, false).1, id)
  {
    assert db.meta[id].lastUsed == 0;
    var a, b := SetPinStep(SyncedStep(db, id, when), id, false).1, SyncedStep(SetPinStep(db, id, false).1, id, when);
    assert a.meta == b.meta;
  }

  /** Deleting leaves the entries of other ids. */
  lemma {:induction false} OthersStay(db: Db, ids: seq<Digest>, size: nat, total: nat)
    requires Distinct(ids) && AllRemovable(db, ids)
    ensures var after := DelUntil(db, ids, size, total).1;
            && (forall e <- after.lru :: e in db.lru) && (forall x <- after.main :: x in db.main)
            && (forall e <- db.lru :: e.1 !in ids ==> e in after.lru)
    decreases |ids|
  {
    hide DelStep, Bare.BlockSize, Removable;
    if ids != [] {
      assert Removable(db, ids[0]);
      DelRemoves(db, ids[0]);
      var (r, next) := DelStep(db, ids[0]);
      if r.Done? && total + r.value.1 < size {
        StillRemovable(db, ids);
        OthersStay(next, ids[1..], size, total + r.value.1);
      }
    }
  }

  /**
   * Declared synced at time 0, a stored block is the first the next eviction
   * deletes; but its LRU entry stays, and the eviction after that panics.
   */
  lemma SyncedAtZeroPanics(db: Db, id: Digest, size: nat, order: seq<(Timestamp, Digest)>,
                           size': nat, order': seq<(Timestamp, Digest)>)
    requires Valid(db) && id in db.main && Enters(db, id) && Ascending(SyncedStep(db, id, 0).lru, order)
    requires Ascending(DelUntil(SyncedStep(db, id, 0), Entries(order), size, 0).1.lru, order')
    ensures var (r, after) := DelUntil(SyncedStep(db, id, 0), Entries(order), size, 0);
            && r.Done? && id !in after.main && (0, id) in after.lru
            && DelUntil(after, Entries(order'), size', 0).0.Panic?
  {
    hide DelUntil, Valid, SyncedStep;
    var after := DelUntil(SyncedStep(db, id, 0), Entries(order), size, 0).1;
    ZeroIsTaken(db, id, size, order);
    ZeroFirst(after.lru, order', id);
    assert Entries(order')[0] == id;
    FirstAbsentPanics(after, Entries(order'), size');
  }

  /** The first eviction after that. */
  lemma ZeroIsTaken(db: Db, id: Digest, size: nat, order: seq<(Timestamp, Digest)>)
    requires Valid(db) && id in db.main && Enters(db, id) && Ascending(SyncedStep(db, id, 0).lru, order)
    ensures var (r, after) := DelUntil(SyncedStep(db, id, 0), Entries(order), size, 0);
            && r.Done? && id !in after.main && (0, id) in after.lru
            && (forall e <- after.lru :: e.0 == 0 ==> e.1 == id)
  {
    var synced, ids := SyncedStep(db, id, 0), Entries(order);
    SyncedOrder(db, id, 0, order);
    ZeroIsEarliest(db, id);
    hide DelUntil, Valid, SyncedStep, AllRemovable;
    ZeroFirst(synced.lru, order, id);
    assert ids[0] == id;
    ZeroStays(synced, ids, size);
    EvictionPanicsIff(synced, ids, size, 0);
    forall i | 0 <= i < |ids|
      ensures ids[i] in synced.main
    {
      assert ids[i] == order[i].1;
    }
  }

  lemma ZeroIsEarliest(db: Db, id: Digest)
    requires Valid(db) && id in db.main && Enters(db, id)
    ensures var synced := SyncedStep(db, id, 0);
            && synced.main == db.main && (0, id) in synced.lru && (forall e <- synced.lru :: e.0 == 0 ==> e.1 == id)
            && id in synced.meta && synced.meta[id].lastUsed == 0
  {
    forall e | e in db.lru
      ensures e.0 > 0
    {
      assert e == (e.0, e.1);
    }
  }

  /** With time 0 at one entry only, that entry is read first. */
  lemma ZeroFirst(index: Index, order: seq<(Timestamp, Digest)>, id: Digest)
    requires Ascending(index, order) && (0, id) in index
    requires forall e <- index :: e.0 == 0 ==> e.1 == id
    ensures order != [] && order[0] == (0, id)
  {
    assert (0, id) in order;
    assert order[0] in order;
    var i :| 0 <= i < |order| && order[i] == (0, id);
    assert order[0].0 <= order[i].0;
    assert order[0] == (order[0].0, order[0].1);
  }

  lemma ZeroStays(db: Db, ids: seq<Digest>, size: nat)
    requires ids != [] && Distinct(ids) && AllRemovable(db, ids)
    requires ids[0] in db.main && ids[0] in db.meta && db.meta[ids[0]].lastUsed == 0 && (0, ids[0]) in db.lru
    ensures var after := DelUntil(db, ids, size, 0).1;
            (0, ids[0]) in after.lru && ids[0] !in after.main && forall e <- after.lru :: e in db.lru
  {
    var id := ids[0];
    var (r, next) := DelStep(db, id);
    assert Removable(db, id);
    DelRemoves(db, id);
    assert next.lru == db.lru;
    hide DelStep, Bare.BlockSize;
    if r.value.1 < size {
      StillRemovable(db, ids);
      OthersStay(next, ids[1..], size, r.value.1);
    }
  }

  lemma FirstAbsentPanics(db: Db, ids: seq<Digest>, size: nat)
    requires ids != [] && ids[0] !in db.main
    ensures DelUntil(db, ids, size, 0).0.Panic?
  {
  }
}
