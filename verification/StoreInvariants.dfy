// The tables of the LMDB store stay in step, over every run; when an operation
// panics; what eviction and expiry remove.

module StoreInvariants {
  import opened Types
  import opened Objects
  import opened RepoStore
  import Bare

  /** `id` is in the LRU: synced and not pinned. */
  predicate Evictable(db: Db, id: Digest) {
    id in db.meta && db.meta[id].synced && !db.meta[id].pin
  }

  /** `id` is both synced and pinned. */
  predicate Held(db: Db, id: Digest) {
    id in db.meta && db.meta[id].synced && db.meta[id].pin
  }

  /** An LRU entry for each synced, unpinned block, at the time it was last used. */
  ghost predicate LruExact(meta: map<Digest, Meta>, lru: Index) {
    forall t: Timestamp, id :: (t, id) in lru <==>
      id in meta && meta[id].synced && !meta[id].pin && meta[id].lastUsed == t
  }

  /** Synced blocks are stored and have been used; others have not. */
  ghost predicate MetaExact(main: Store, meta: map<Digest, Meta>) {
    forall id <- meta ::
      if meta[id].synced then meta[id].lastUsed > 0 && id in main else meta[id].lastUsed == 0
  }

  /** An expiry entry for each stored block that expires, at the time it does. */
  ghost predicate ExpiryExact(main: Store, expiry: Index) {
    forall t: Timestamp, id :: (t, id) in expiry <==> id in main && main[id].expiry == Some(t)
  }

  /** Every block is under its hash. */
  ghost predicate MainExact(main: Store) {
    forall id <- main :: main[id].Hash() == id && main[id] == main[id].Stripped()
  }

  /** The tables are in step. */
  ghost predicate Valid(db: Db) {
    MainExact(db.main) && MetaExact(db.main, db.meta) && LruExact(db.meta, db.lru) && ExpiryExact(db.main, db.expiry)
  }

  // ----- One operation -----

  datatype Op =
    | OpGet(id: Digest, now: Timestamp)
    | OpPut(block: Block)
    | OpDel(id: Digest)
    | OpSetPin(id: Digest, add: bool)
    | OpSynced(id: Digest, when: Timestamp)
    | OpRemoveExpired(now: Timestamp)
    | OpRemoveLeastUsed(size: nat)

  /**
   * What the operations need of their callers: no call at time 0, no stale
   * cached id, and `has_been_synced` for stored blocks only.
   */
  predicate Disciplined(db: Db, op: Op) {
    match op
    case OpGet(_, now) => now > 0
    case OpPut(block) => block.Coherent()
    case OpSynced(id, when) => (id in db.meta && db.meta[id].synced) || (id in db.main && when > 0)
    case _ => true
  }

  /** One operation, to its return or its panic. */
  ghost predicate Step(db: Db, op: Op, panicked: bool, after: Db) {
    match op
    case OpGet(id, now) => var (r, next) := GetStep(db, id, now); after == next && (panicked <==> r.Panic?)
    case OpPut(block) => after == PutStep(db, block) && !panicked
    case OpDel(id) => var (r, next) := DelStep(db, id); after == next && (panicked <==> r.Panic?)
    case OpSetPin(id, add) => var (r, next) := SetPinStep(db, id, add); after == next && (panicked <==> r.Panic?)
    case OpSynced(id, when) => after == SyncedStep(db, id, when) && !panicked
    case OpRemoveExpired(now) =>
      exists order :: Descending(db.expiry, now, order) && DelAll(db, Entries(order)) == (!panicked, after)
    case OpRemoveLeastUsed(size) =>
      exists order :: Ascending(db.lru, order) &&
        var (r, next) := DelUntil(db, Entries(order), size, 0); after == next && (panicked <==> r.Panic?)
  }

  lemma GetKeeps(db: Db, id: Digest, now: Timestamp)
    requires Valid(db) && now > 0
    ensures var (r, after) := GetStep(db, id, now);
            && Valid(after) && after.main == db.main && after.expiry == db.expiry
            && (r == if id in db.main then Done(db.main[id]) else NotFound)
            && after.meta.Keys == db.meta.Keys
            && (forall x <- db.meta :: after.meta[x].pin == db.meta[x].pin && after.meta[x].synced == db.meta[x].synced)
  {
    assert id in db.main ==> db.main[id].Id() == id;
    hide MainExact, ExpiryExact;
  }

  /** The block is stored and synced: reading it counts as using it. */
  predicate Counts(db: Db, id: Digest) {
    id in db.main && id in db.meta && db.meta[id].synced
  }

  /**
   * `get` at a time sets the last use of a synced block to that time, and moves
   * its LRU entry there if it has one. It changes nothing else; it changes
   * nothing at all for a block that is not stored or not synced.
   */
  lemma GetIsExact(db: Db, id: Digest, now: Timestamp)
    requires Valid(db) && now > 0
    ensures var after := GetStep(db, id, now).1;
            if Counts(db, id) then
              && after.meta.Keys == db.meta.Keys
              && after.meta[id] == Meta(db.meta[id].pin, now, true)
              && (forall x <- db.meta :: x != id ==> after.meta[x] == db.meta[x])
              && (forall e: (Timestamp, Digest) :: e.1 != id ==> (e in after.lru <==> e in db.lru))
              && (forall t: Timestamp :: (t, id) in after.lru <==> t == now && !db.meta[id].pin)
              && after.main == db.main && after.expiry == db.expiry
            else after == db
  {
    hide MainExact, ExpiryExact;
    if Counts(db, id) && !db.meta[id].pin {
      assert (db.meta[id].lastUsed, id) in db.lru;
    }
  }

  lemma PutKeeps(db: Db, b: Block)
    requires Valid(db) && b.Coherent()
    ensures var after := PutStep(db, b);
            && Valid(after) && after.meta == db.meta && after.lru == db.lru
            && after.main.Keys == db.main.Keys + {b.Id()}
            && (forall id <- db.main :: id in after.main && after.main[id] == db.main[id])
  {
    if b.Id() in db.main {
      assert db.main[b.Id()].Hash() == b.Hash();
    }
  }

  /** The tables without some blocks. */
  function Without(db: Db, ids: set<Digest>): Db {
    Db(db.main - ids, db.meta - ids,
       set e | e in db.expiry && e.1 !in ids,
       set e | e in db.lru && e.1 !in ids)
  }

  /** `del` of a stored block takes it out of all four tables, unless it is synced and pinned: then it panics. */
  lemma DelIsExact(db: Db, id: Digest)
    requires Valid(db)
    ensures DelStep(db, id) ==
            if id !in db.main then (NotFound, db)
            else if Held(db, id) then (Panic, db)
            else (Done((db.main[id], Bare.BlockSize(db.main[id]))), Without(db, {id}))
  {
    hide Bare.BlockSize;
    if id in db.main && !Held(db, id) {
      var b := db.main[id];
      var used := if id in db.meta then db.meta[id].lastUsed else 0;
      assert used != 0 ==> (used, id) in db.lru;
      assert b.expiry.Some? ==> (b.expiry.value, id) in db.expiry;
      assert forall t: Timestamp :: (t, id) in db.lru ==> used != 0 && t == used;
      assert forall t: Timestamp :: (t, id) in db.expiry ==> b.expiry == Some(t);
      var after := DelStep(db, id).1;
      assert after.expiry == Without(db, {id}).expiry;
      assert after.lru == Without(db, {id}).lru;
    }
  }

  /** The size `del` reports is the number of bytes the block takes serialized. */
  lemma DelReportsBytes(db: Db, id: Digest, h: Bare.Hash)
    requires DelStep(db, id).0.Done?
    ensures var (b, size) := DelStep(db, id).0.value;
            b == db.main[id] && size == |Bare.SerializeBlock(h, b)|
  {
    hide Bare.BlockSize, Bare.SerializeBlock;
  }

  lemma WithoutKeeps(db: Db, ids: set<Digest>)
    requires Valid(db)
    ensures Valid(Without(db, ids))
  {
  }

  lemma SetPinKeeps(db: Db, id: Digest, add: bool)
    requires Valid(db)
    ensures var (r, after) := SetPinStep(db, id, add);
            && r == Done(()) && Valid(after) && after.main == db.main && after.expiry == db.expiry
            && (id in db.meta ==> id in after.meta && after.meta[id] == Meta(add, db.meta[id].lastUsed, db.meta[id].synced))
            && (id !in db.meta ==> if add then id in after.meta && after.meta[id] == Meta(true, 0, false) else id !in after.meta)
            && (forall e: (Timestamp, Digest) :: e.1 != id ==> (e in after.lru <==> e in db.lru))
            && (forall x :: x != id ==> (x in after.meta <==> x in db.meta))
            && (forall x <- db.meta :: x != id ==> after.meta[x] == db.meta[x])
  {
    hide LruExact, MainExact, ExpiryExact;
    SetPinLru(db, id, add);
  }

  /**
   * `has_been_synced` marks a block that was not synced as last used at a time,
   * keeps its pin, and lists it in the LRU at that time unless it is pinned. It
   * changes nothing else, and nothing at all for a block synced before.
   */
  lemma SyncedIsExact(db: Db, id: Digest, when: Timestamp)
    requires Valid(db)
    ensures var after := SyncedStep(db, id, when);
            var pinned := id in db.meta && db.meta[id].pin;
            if id in db.meta && db.meta[id].synced then after == db
            else
              && after.main == db.main && after.expiry == db.expiry && after.meta.Keys == db.meta.Keys + {id}
              && after.meta[id] == Meta(pinned, when, true)
              && (forall x <- db.meta :: x != id ==> after.meta[x] == db.meta[x])
              && (forall e: (Timestamp, Digest) :: e.1 != id ==> (e in after.lru <==> e in db.lru))
              && (forall t: Timestamp :: (t, id) in after.lru <==> t == when && !pinned)
  {
    hide MainExact, ExpiryExact;
  }

  lemma SetPinLru(db: Db, id: Digest, add: bool)
    requires LruExact(db.meta, db.lru) && MetaExact(db.main, db.meta)
    ensures var (r, after) := SetPinStep(db, id, add); r == Done(()) && LruExact(after.meta, after.lru)
  {
    if id in db.meta && db.meta[id].synced && !db.meta[id].pin {
      assert (db.meta[id].lastUsed, id) in db.lru;
    }
  }

  /** `has_been_synced` keeps the tables in step exactly when the caller's side of it is met. */
  lemma SyncedKeepsIff(db: Db, id: Digest, when: Timestamp)
    requires Valid(db)
    ensures Valid(SyncedStep(db, id, when)) <==> Disciplined(db, OpSynced(id, when))
  {
    var after := SyncedStep(db, id, when);
    if !Disciplined(db, OpSynced(id, when)) {
      assert after.meta[id].synced && after.meta[id].lastUsed == when;
      assert id in after.meta;
    }
  }

  // ----- Deleting many -----

  ghost predicate AllStored(db: Db, ids: seq<Digest>) {
    forall i :: 0 <= i < |ids| ==> ids[i] in db.main
  }

  ghost predicate SomeHeld(db: Db, ids: seq<Digest>) {
    exists i :: 0 <= i < |ids| && Held(db, ids[i])
  }

  function SetOf(ids: seq<Digest>): set<Digest> {
    set id | id in ids
  }

  lemma WithoutTwice(db: Db, a: set<Digest>, b: set<Digest>)
    ensures Without(Without(db, a), b) == Without(db, a + b)
  {
  }

  lemma WithoutRest(db: Db, ids: seq<Digest>)
    requires ids != [] && Distinct(ids) && AllStored(db, ids)
    ensures var rest, next := ids[1..], Without(db, {ids[0]});
            && Distinct(rest) && AllStored(next, rest)
            && (forall i :: 0 <= i < |rest| ==> (Held(next, rest[i]) <==> Held(db, rest[i])))
            && SetOf(ids) == {ids[0]} + SetOf(rest)
  {
  }

  /** The first of the ids that is synced and pinned is the `k`th. */
  ghost predicate FirstHeld(db: Db, ids: seq<Digest>, k: nat) {
    k < |ids| && Held(db, ids[k]) && !SomeHeld(db, ids[..k])
  }

  /** What is gone when deleting `ids` in turn has panicked: those before the first that is synced and pinned. */
  ghost predicate GoneBefore(db: Db, ids: seq<Digest>, after: Db) {
    exists k: nat :: FirstHeld(db, ids, k) && after == Without(db, SetOf(ids[..k]))
  }

  /** Deleting stored blocks in turn removes them all, or panics at the first that is synced and pinned. */
  lemma {:induction false} DelAllIsExact(db: Db, ids: seq<Digest>)
    requires Valid(db) && Distinct(ids) && AllStored(db, ids)
    ensures var (ok, after) := DelAll(db, ids);
            && (ok <==> !SomeHeld(db, ids)) && Valid(after)
            && (if ok then after == Without(db, SetOf(ids)) else GoneBefore(db, ids, after))
    decreases |ids|
  {
    hide DelStep, Held, Valid, Without, GoneBefore;
    WithoutNone(db);
    if ids != [] {
      DelIsExact(db, ids[0]);
      assert ids[0] in db.main;
      if Held(db, ids[0]) {
        NoneGone(db, ids);
      } else {
        WithoutKeeps(db, {ids[0]});
        WithoutRest(db, ids);
        var next := Without(db, {ids[0]});
        DelAllIsExact(next, ids[1..]);
        WithoutTwice(db, {ids[0]}, SetOf(ids[1..]));
        HeldRest(db, next, ids);
        var (ok, after) := DelAll(next, ids[1..]);
        if !ok {
          OneMoreGone(db, ids, after);
        }
      }
    }
  }

  lemma NoneGone(db: Db, ids: seq<Digest>)
    requires ids != [] && Held(db, ids[0])
    ensures GoneBefore(db, ids, db)
  {
    hide Held;
    WithoutNone(db);
    assert ids[..0] == [];
    assert FirstHeld(db, ids, 0);
  }

  lemma OneMoreGone(db: Db, ids: seq<Digest>, after: Db)
    requires ids != [] && Distinct(ids) && AllStored(db, ids) && !Held(db, ids[0])
    requires GoneBefore(Without(db, {ids[0]}), ids[1..], after)
    ensures GoneBefore(db, ids, after)
  {
    hide Held, Without;
    var next, rest := Without(db, {ids[0]}), ids[1..];
    var k: nat :| FirstHeld(next, rest, k) && after == Without(next, SetOf(rest[..k]));
    WithoutRest(db, ids);
    assert ids[..k + 1] == [ids[0]] + rest[..k];
    assert SetOf(ids[..k + 1]) == {ids[0]} + SetOf(rest[..k]);
    WithoutTwice(db, {ids[0]}, SetOf(rest[..k]));
    var gone := ids[..k + 1];
    forall i | 0 <= i < |gone|
      ensures !Held(db, gone[i])
    {
      if i > 0 {
        assert gone[i] == rest[..k][i - 1] == rest[i - 1];
        assert !Held(next, rest[..k][i - 1]);
      }
    }
    assert ids[k + 1] == rest[k];
    assert FirstHeld(db, ids, k + 1);
  }

  lemma HeldRest(db: Db, next: Db, ids: seq<Digest>)
    requires ids != [] && !Held(db, ids[0])
    requires forall i :: 0 <= i < |ids[1..]| ==> (Held(next, ids[1..][i]) <==> Held(db, ids[1..][i]))
    ensures SomeHeld(next, ids[1..]) <==> SomeHeld(db, ids)
  {
    hide Held;
    if SomeHeld(db, ids) {
      var i :| 0 <= i < |ids| && Held(db, ids[i]);
      assert ids[1..][i - 1] == ids[i];
    }
    if SomeHeld(next, ids[1..]) {
      var i :| 0 <= i < |ids[1..]| && Held(next, ids[1..][i]);
      assert ids[i + 1] == ids[1..][i];
    }
  }

  lemma WithoutNone(db: Db)
    ensures SetOf([]) == {} && Without(db, {}) == db
  {
  }

  // ----- Expiry -----

  /** No index lists an id twice, so neither does a reading of it. */
  lemma EntriesDistinct(db: Db, order: seq<(Timestamp, Digest)>)
    requires Valid(db) && Distinct(order)
    requires (forall e <- order :: e in db.expiry) || (forall e <- order :: e in db.lru)
    ensures Distinct(Entries(order)) && AllStored(db, Entries(order))
  {
    var ids := Entries(order);
    forall i | 0 <= i < |ids|
      ensures ids[i] in db.main
    {
      assert order[i] in order;
      assert order[i] == (order[i].0, order[i].1);
    }
    forall i, j | 0 <= i < j < |ids|
      ensures ids[i] != ids[j]
    {
      assert order[i] in order && order[j] in order && order[i] != order[j];
      assert order[i] == (order[i].0, order[i].1) && order[j] == (order[j].0, order[j].1);
    }
  }

  /** The stored blocks that expire at or before `now`. */
  function Expired(db: Db, now: Timestamp): set<Digest> {
    set id | id in db.main && db.main[id].expiry.Some? && db.main[id].expiry.value <= now
  }

  lemma ExpiredAreRead(db: Db, now: Timestamp, order: seq<(Timestamp, Digest)>)
    requires Valid(db) && Descending(db.expiry, now, order)
    ensures SetOf(Entries(order)) == Expired(db, now)
    ensures Distinct(Entries(order)) && AllStored(db, Entries(order))
  {
    forall e | e in order ensures e in db.expiry {}
    EntriesDistinct(db, order);
    var ids := Entries(order);
    forall id | id in ids
      ensures id in Expired(db, now)
    {
      var i :| 0 <= i < |ids| && ids[i] == id;
      assert order[i] in order && order[i] == (order[i].0, order[i].1);
    }
    forall id | id in Expired(db, now)
      ensures id in ids
    {
      var e := (db.main[id].expiry.value, id);
      assert e in order;
      var i :| 0 <= i < |order| && order[i] == e;
      assert ids[i] == id;
    }
  }

  /**
   * `remove_expired` panics exactly when some expired block is synced and
   * pinned, although a pin is documented not to override the expiry; then the
   * expired blocks it comes to before the first such are gone. Otherwise
   * exactly the expired blocks go, out of all four tables, and nothing else
   * changes.
   */
  lemma RemoveExpiredIsExact(db: Db, now: Timestamp, panicked: bool, after: Db)
    requires Valid(db) && Step(db, OpRemoveExpired(now), panicked, after)
    ensures Valid(after)
    ensures panicked <==> exists id <- Expired(db, now) :: Held(db, id)
    ensures !panicked ==> after == Without(db, Expired(db, now)) && Expired(after, now) == {}
    ensures panicked ==> exists order :: Descending(db.expiry, now, order) && GoneBefore(db, Entries(order), after)
  {
    var order :| Descending(db.expiry, now, order) && DelAll(db, Entries(order)) == (!panicked, after);
    hide Valid, Held, DelAll, Descending, Without, Expired, GoneBefore;
    ExpiredAreRead(db, now, order);
    DelAllIsExact(db, Entries(order));
    HeldInSet(db, Entries(order));
    NothingExpired(db, now);
  }

  lemma HeldInSet(db: Db, ids: seq<Digest>)
    ensures SomeHeld(db, ids) <==> exists id <- SetOf(ids) :: Held(db, id)
  {
    hide Held;
    if SomeHeld(db, ids) {
      var i :| 0 <= i < |ids| && Held(db, ids[i]);
      assert ids[i] in SetOf(ids);
    }
    if id :| id in SetOf(ids) && Held(db, id) {
      var i :| 0 <= i < |ids| && ids[i] == id;
      assert Held(db, ids[i]);
    }
  }

  lemma NothingExpired(db: Db, now: Timestamp)
    ensures Expired(Without(db, Expired(db, now)), now) == {}
  {
  }

  // ----- Eviction -----

  /** The bytes that deleting `ids` reports as reclaimed. */
  function SizesOf(db: Db, ids: seq<Digest>): nat {
    if ids == [] then 0
    else (if ids[0] in db.main then Bare.BlockSize(db.main[ids[0]]) else 0) + SizesOf(db, ids[1..])
  }

  ghost predicate NoneHeld(db: Db, ids: seq<Digest>) {
    forall i :: 0 <= i < |ids| ==> !Held(db, ids[i])
  }

  /**
   * `n` is how many of `ids` a removal of `size` bytes takes, `total` being
   * gone already: at least one if there are any, and no more once `size` is
   * reached.
   */
  ghost predicate Takes(db: Db, ids: seq<Digest>, size: nat, total: nat, n: nat) {
    && n <= |ids|
    && (ids != [] ==> n > 0)
    && (n < |ids| ==> total + SizesOf(db, ids[..n]) >= size)
    && (forall k :: 0 < k < n ==> total + SizesOf(db, ids[..k]) < size)
  }

  lemma SizesPrefix(db: Db, ids: seq<Digest>, k: nat)
    requires 0 < k <= |ids|
    ensures SizesOf(db, ids[..k]) == SizesOf(db, [ids[0]]) + SizesOf(db, ids[1..][..k - 1])
  {
    assert ids[..k][1..] == ids[1..][..k - 1];
    assert [ids[0]][1..] == [];
  }

  lemma {:induction false} SizesMonotone(db: Db, ids: seq<Digest>, n: nat)
    requires n <= |ids|
    ensures SizesOf(db, ids[..n]) <= SizesOf(db, ids)
  {
    hide Bare.BlockSize;
    if n > 0 {
      assert ids[..n][1..] == ids[1..][..n - 1];
      SizesMonotone(db, ids[1..], n - 1);
    }
  }

  lemma {:induction false} SizesWithout(db: Db, id: Digest, ids: seq<Digest>)
    requires id !in ids
    ensures SizesOf(Without(db, {id}), ids) == SizesOf(db, ids)
  {
    hide Bare.BlockSize;
    if ids != [] {
      SizesWithout(db, id, ids[1..]);
    }
  }

  lemma TakesOneMore(db: Db, next: Db, ids: seq<Digest>, size: nat, total: nat, m: nat)
    requires ids != [] && Distinct(ids) && next == Without(db, {ids[0]})
    requires total + SizesOf(db, [ids[0]]) < size
    requires Takes(next, ids[1..], size, total + SizesOf(db, [ids[0]]), m)
    ensures Takes(db, ids, size, total, m + 1)
    ensures SizesOf(db, ids[..m + 1]) == SizesOf(db, [ids[0]]) + SizesOf(next, ids[1..][..m])
  {
    hide SizesOf, Without;
    forall k | 0 < k <= m + 1
      ensures SizesOf(db, ids[..k]) == SizesOf(db, [ids[0]]) + SizesOf(next, ids[1..][..k - 1])
    {
      SizesPrefix(db, ids, k);
      SizesWithout(db, ids[0], ids[1..][..k - 1]);
    }
    forall k | 0 < k < m + 1
      ensures total + SizesOf(db, ids[..k]) < size
    {
      if k == 1 {
        assert ids[..1] == [ids[0]];
      }
    }
  }

  /** Deleting until enough is gone removes just as many of `ids`, in order, as it takes. */
  lemma {:induction false} DelUntilIsExact(db: Db, ids: seq<Digest>, size: nat, total: nat) returns (n: nat)
    requires Valid(db) && Distinct(ids) && AllStored(db, ids) && NoneHeld(db, ids)
    ensures Takes(db, ids, size, total, n)
    ensures var (r, after) := DelUntil(db, ids, size, total);
            r == Done(total + SizesOf(db, ids[..n])) && after == Without(db, SetOf(ids[..n])) && Valid(after)
    decreases |ids|
  {
    hide DelStep, Held, Valid, Without, Bare.BlockSize;
    n := 0;
    WithoutNone(db);
    if ids != [] {
      var id := ids[0];
      assert id in db.main && !Held(db, id);
      DelIsExact(db, id);
      WithoutKeeps(db, {id});
      assert [id][1..] == [] && SizesOf(db, [id]) == Bare.BlockSize(db.main[id]) + SizesOf(db, []);
      if total + SizesOf(db, [id]) >= size {
        n := 1;
        assert ids[..1] == [id];
        assert SetOf([id]) == {id};
      } else {
        var next := Without(db, {id});
        WithoutRest(db, ids);
        assert NoneHeld(next, ids[1..]) by {
          forall i | 0 <= i < |ids[1..]| ensures !Held(next, ids[1..][i]) { assert ids[1..][i] == ids[i + 1]; }
        }
        var m := DelUntilIsExact(next, ids[1..], size, total + SizesOf(db, [id]));
        TakesOneMore(db, next, ids, size, total, m);
        n := m + 1;
        WithoutTwice(db, {id}, SetOf(ids[1..][..m]));
        assert ids[..n] == [id] + ids[1..][..m];
        assert SetOf(ids[..n]) == {id} + SetOf(ids[1..][..m]);
      }
    }
  }

  /** What a removal of `size` bytes does, given how the LRU reads. */
  ghost predicate Evicts(db: Db, size: nat, order: seq<(Timestamp, Digest)>, n: nat, after: Db) {
    && Ascending(db.lru, order)
    && Takes(db, Entries(order), size, 0, n)
    && (forall i :: 0 <= i < n ==> Evictable(db, order[i].1))
    && after == Without(db, SetOf(Entries(order)[..n]))
  }

  /**
   * `remove_least_used` never panics. It takes a prefix of the LRU in time
   * order, so only synced, unpinned blocks; it returns the sum of their sizes;
   * and it stops as soon as `size` is reached, or with the LRU empty.
   */
  lemma RemoveLeastUsedIsExact(db: Db, size: nat, order: seq<(Timestamp, Digest)>) returns (n: nat)
    requires Valid(db) && Ascending(db.lru, order)
    ensures var (r, after) := DelUntil(db, Entries(order), size, 0);
            && Evicts(db, size, order, n, after) && Valid(after)
            && r == Done(SizesOf(db, Entries(order)[..n]))
            && (after.lru == {} || SizesOf(db, Entries(order)[..n]) >= size)
            && (forall e <- after.lru, i :: 0 <= i < n ==> order[i].0 <= e.0)
  {
    hide Valid, DelUntil, SizesOf, Without, Distinct, AllStored, NoneHeld, Evictable;
    LruEntries(db, order);
    var ids := Entries(order);
    n := DelUntilIsExact(db, ids, size, 0);
    var after := DelUntil(db, ids, size, 0).1;
    RemainingLater(db, order, n, after);
  }

  /**
   * A block just read, later than all others, is evicted last: if an eviction
   * takes it, it has emptied the LRU, and so taken every other.
   */
  lemma ReadIsEvictedLast(db: Db, id: Digest, now: Timestamp, size: nat, order: seq<(Timestamp, Digest)>)
    requires Valid(db) && now > 0 && Counts(db, id) && !db.meta[id].pin
    requires forall e <- db.lru :: e.1 != id ==> e.0 < now
    requires Ascending(GetStep(db, id, now).1.lru, order)
    ensures order != [] && order[|order| - 1] == (now, id)
    ensures var end := DelUntil(GetStep(db, id, now).1, Entries(order), size, 0).1;
            id !in end.main ==> end.lru == {}
  {
    var after := GetStep(db, id, now).1;
    GetKeeps(db, id, now);
    GetIsExact(db, id, now);
    hide Valid, GetStep, DelUntil, SizesOf, Takes;
    LatestIsLast(after.lru, order, (now, id));
    var n := RemoveLeastUsedIsExact(after, size, order);
    var end := DelUntil(after, Entries(order), size, 0).1;
    if n < |order| {
      LastStays(after, order, n, id);
    } else {
      RemainingLater(after, order, |order|, end) by { TakesSome(after, Entries(order), size, n); }
    }
  }

  lemma TakesSome(db: Db, ids: seq<Digest>, size: nat, n: nat)
    requires Takes(db, ids, size, 0, n)
    ensures n <= |ids|
  {
  }

  lemma LatestIsLast(index: Index, order: seq<(Timestamp, Digest)>, e: (Timestamp, Digest))
    requires Ascending(index, order) && e in index && forall f <- index :: f != e ==> f.0 < e.0
    ensures order != [] && order[|order| - 1] == e
  {
    assert e in order;
    var i :| 0 <= i < |order| && order[i] == e;
    var last := order[|order| - 1];
    assert last in order;
  }

  /** What is last in the LRU stays when less than all of it is taken. */
  lemma LastStays(db: Db, order: seq<(Timestamp, Digest)>, n: nat, id: Digest)
    requires Valid(db) && Ascending(db.lru, order) && n < |order| && order[|order| - 1].1 == id
    ensures id in Without(db, SetOf(Entries(order)[..n])).main
  {
    LruEntries(db, order);
    var ids := Entries(order);
    assert ids[|ids| - 1] == id;
    var taken := ids[..n];
    forall i | 0 <= i < |taken|
      ensures taken[i] != id
    {
      assert taken[i] == ids[i];
    }
  }

  /** What the LRU lists is stored, and can be evicted. */
  lemma LruEntries(db: Db, order: seq<(Timestamp, Digest)>)
    requires Valid(db) && Ascending(db.lru, order)
    ensures Distinct(Entries(order)) && AllStored(db, Entries(order)) && NoneHeld(db, Entries(order))
    ensures forall i :: 0 <= i < |order| ==> Evictable(db, order[i].1)
  {
    forall e | e in order ensures e in db.lru {}
    EntriesDistinct(db, order);
    forall i | 0 <= i < |order|
      ensures Evictable(db, order[i].1)
    {
      assert order[i] in order && order[i] == (order[i].0, order[i].1);
    }
  }

  /** What a removal of a prefix leaves in the LRU comes after it. */
  lemma RemainingLater(db: Db, order: seq<(Timestamp, Digest)>, n: nat, after: Db)
    requires Ascending(db.lru, order) && n <= |order| && after == Without(db, SetOf(Entries(order)[..n]))
    ensures forall e <- after.lru, i :: 0 <= i < n ==> order[i].0 <= e.0
    ensures n == |order| ==> after.lru == {}
  {
    var ids := Entries(order);
    forall e | e in after.lru
      ensures n < |order| && forall i :: 0 <= i < n ==> order[i].0 <= e.0
    {
      assert e in order;
      var j :| 0 <= j < |order| && order[j] == e;
      Taken(ids, n, j);
    }
  }

  lemma Taken(ids: seq<Digest>, n: nat, j: nat)
    requires n <= |ids| && j < |ids|
    ensures j < n ==> ids[j] in SetOf(ids[..n])
  {
    assert j < n ==> ids[..n][j] == ids[j];
  }

  // ----- Runs -----

  /** The operation comes to delete a block that is synced and pinned. */
  ghost predicate HitsHeld(db: Db, op: Op) {
    match op
    case OpDel(id) => id in db.main && Held(db, id)
    case OpRemoveExpired(now) => exists id <- Expired(db, now) :: Held(db, id)
    case _ => false
  }

  /** Every disciplined operation keeps the tables in step, and panics exactly on a synced and pinned block. */
  lemma StepKeeps(db: Db, op: Op, panicked: bool, after: Db)
    requires Valid(db) && Disciplined(db, op) && Step(db, op, panicked, after)
    ensures Valid(after)
    ensures panicked <==> HitsHeld(db, op)
  {
    hide Valid, GetStep, DelStep, SetPinStep, PutStep, SyncedStep, Without;
    match op
    case OpGet(id, now) => GetKeeps(db, id, now);
    case OpPut(block) => PutKeeps(db, block);
    case OpDel(id) =>
      DelIsExact(db, id);
      WithoutKeeps(db, {id});
    case OpSetPin(id, add) => SetPinKeeps(db, id, add);
    case OpSynced(id, when) => SyncedKeepsIff(db, id, when);
    case OpRemoveExpired(now) => RemoveExpiredIsExact(db, now, panicked, after);
    case OpRemoveLeastUsed(size) =>
      var order :| Ascending(db.lru, order) &&
        var (r, next) := DelUntil(db, Entries(order), size, 0); after == next && (panicked <==> r.Panic?);
      var n := RemoveLeastUsedIsExact(db, size, order);
  }

  /** A run: the tables before each operation and after the last, and which operations panicked. */
  ghost predicate Run(dbs: seq<Db>, ops: seq<Op>, panics: seq<bool>) {
    && |dbs| == |ops| + 1 && |panics| == |ops|
    && forall i :: 0 <= i < |ops| ==> Disciplined(dbs[i], ops[i]) && Step(dbs[i], ops[i], panics[i], dbs[i + 1])
  }

  /**
   * Over every run from valid tables, such as the empty ones, the tables stay
   * in step: no index deletion misses its entry, but for blocks that are synced
   * and pinned when they are deleted or expire.
   */
  lemma {:induction false} RunKeeps(dbs: seq<Db>, ops: seq<Op>, panics: seq<bool>)
    requires Run(dbs, ops, panics) && Valid(dbs[0])
    ensures forall i :: 0 <= i <= |ops| ==> Valid(dbs[i])
    ensures forall i :: 0 <= i < |ops| ==> (panics[i] <==> HitsHeld(dbs[i], ops[i]))
    decreases |ops|
  {
    hide Valid, Disciplined, Step, HitsHeld;
    if ops != [] {
      StepKeeps(dbs[0], ops[0], panics[0], dbs[1]);
      RunKeeps(dbs[1..], ops[1..], panics[1..]);
      forall i | 0 <= i <= |ops|
        ensures Valid(dbs[i])
      {
        if i > 0 { assert dbs[i] == dbs[1..][i - 1]; }
      }
      forall i | 0 <= i < |ops|
        ensures panics[i] <==> HitsHeld(dbs[i], ops[i])
      {
        if i > 0 { assert ops[i] == ops[1..][i - 1] && panics[i] == panics[1..][i - 1] && dbs[i] == dbs[1..][i - 1]; }
      }
    }
  }

  lemma EmptyIsValid()
    ensures Valid(EMPTY)
  {
  }
}
