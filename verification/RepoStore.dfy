// The LMDB block store: blocks, their metadata, and two indexes kept in step.

module RepoStore {
  import opened Types
  import opened Objects
  import Bare

  /** `BlockMeta`. */
  datatype Meta = Meta(pin: bool, lastUsed: Timestamp, synced: bool)

  type Index = set<(Timestamp, Digest)>

  /** The four tables. */
  datatype Db = Db(main: Store, meta: map<Digest, Meta>, expiry: Index, lru: Index)

  const EMPTY := Db(map[], map[], {}, {})

  /** The result of a call; a failed `unwrap` is a panic, and rolls the transaction back. */
  datatype Outcome<+T> = Done(value: T) | NotFound | Panic

  // ----- What each operation does to the tables -----

  function Retimed(db: Db, id: Digest, now: Timestamp): Db
    requires id in db.meta
  {
    var m := db.meta[id];
    Db(db.main, db.meta[id := m.(lastUsed := now)], db.expiry,
       if m.pin then db.lru else db.lru - {(m.lastUsed, id)} + {(now, id)})
  }

  /** `get` moves a synced block to the recent end of the LRU. */
  function GetStep(db: Db, id: Digest, now: Timestamp): (Outcome<Block>, Db) {
    if id !in db.main then (NotFound, db)
    else if id in db.meta && db.meta[id].synced && !db.meta[id].pin && (db.meta[id].lastUsed, id) !in db.lru then (Panic, db)
    else
      var after := if id in db.meta && db.meta[id].synced then Retimed(db, id, now) else db;
      (if db.main[id].Id() != id then Panic else Done(db.main[id]), after)
  }

  /** `put`; what is stored has lost its unserialized fields. */
  function PutStep(db: Db, b: Block): Db {
    Db(db.main[b.Id() := b.Stripped()], db.meta,
       if b.expiry.Some? then db.expiry + {(b.expiry.value, b.Id())} else db.expiry, db.lru)
  }

  /** `del` returns the block and its serialized size. */
  function DelStep(db: Db, id: Digest): (Outcome<(Block, nat)>, Db) {
    if id !in db.main then (NotFound, db)
    else
      var b := db.main[id];
      var used := if id in db.meta then db.meta[id].lastUsed else 0;
      if used != 0 && (used, id) !in db.lru then (Panic, db)
      else if b.expiry.Some? && (b.expiry.value, id) !in db.expiry then (Panic, db)
      else
        (Done((b, Bare.BlockSize(b))),
         Db(db.main - {id}, db.meta - {id},
            if b.expiry.Some? then db.expiry - {(b.expiry.value, id)} else db.expiry,
            if used != 0 then db.lru - {(used, id)} else db.lru))
  }

  /** `set_pin`. */
  function SetPinStep(db: Db, id: Digest, add: bool): (Outcome<()>, Db) {
    if id !in db.meta then
      (Done(()), if add then db.(meta := db.meta[id := Meta(true, 0, false)]) else db)
    else
      var m := db.meta[id];
      if add == m.pin then (Done(()), db)
      else if m.synced && add && (m.lastUsed, id) !in db.lru then (Panic, db)
      else
        (Done(()),
         db.(meta := db.meta[id := m.(pin := add)],
             lru := if !m.synced then db.lru
                    else if add then db.lru - {(m.lastUsed, id)}
                    else db.lru + {(m.lastUsed, id)}))
  }

  /** `has_been_synced`. */
  function SyncedStep(db: Db, id: Digest, when: Timestamp): Db {
    if id in db.meta && db.meta[id].synced then db
    else
      var pin := id in db.meta && db.meta[id].pin;
      db.(meta := db.meta[id := Meta(pin, when, true)],
          lru := if pin then db.lru else db.lru + {(when, id)})
  }

  /** Deleting one block after the other; anything but success is unwrapped. */
  function DelAll(db: Db, ids: seq<Digest>): (bool, Db)
    decreases |ids|
  {
    if ids == [] then (true, db)
    else
      var (r, next) := DelStep(db, ids[0]);
      if r.Done? then DelAll(next, ids[1..]) else (false, next)
  }

  /** Deleting one after the other until `size` bytes are gone, `total` of them before. */
  function DelUntil(db: Db, ids: seq<Digest>, size: nat, total: nat): (Outcome<nat>, Db)
    decreases |ids|
  {
    if ids == [] then (Done(total), db)
    else
      var (r, next) := DelStep(db, ids[0]);
      if !r.Done? then (Panic, next)
      else if total + r.value.1 >= size then (Done(total + r.value.1), next)
      else DelUntil(next, ids[1..], size, total + r.value.1)
  }

  function Entries(index: seq<(Timestamp, Digest)>): (r: seq<Digest>)
    ensures |r| == |index|
  {
    seq(|index|, i requires 0 <= i < |index| => index[i].1)
  }

  ghost predicate Distinct<T>(s: seq<T>) {
    forall i, j :: 0 <= i < j < |s| ==> s[i] != s[j]
  }

  /** An index read from its start: every entry once, times not decreasing. */
  ghost predicate Ascending(index: Index, order: seq<(Timestamp, Digest)>) {
    && Distinct(order)
    && (forall e :: e in order <==> e in index)
    && (forall i, j :: 0 <= i < j < |order| ==> order[i].0 <= order[j].0)
  }

  /** The expired part of an index, read backwards from `now`. */
  ghost predicate Descending(index: Index, now: Timestamp, order: seq<(Timestamp, Digest)>) {
    && Distinct(order)
    && (forall e :: e in order <==> e in index && e.0 <= now)
    && (forall i, j :: 0 <= i < j < |order| ==> order[j].0 <= order[i].0)
  }

  lemma {:induction false} LatestExists(index: Index) returns (e: (Timestamp, Digest))
    requires index != {}
    ensures e in index && forall f <- index :: f.0 <= e.0
  {
    var x :| x in index;
    e := x;
    if index != {x} {
      var y := LatestExists(index - {x});
      e := if x.0 <= y.0 then y else x;
      forall f | f in index ensures f.0 <= e.0 {
        if f != x { assert f in index - {x}; }
      }
    }
  }

  lemma {:induction false} EarliestExists(index: Index) returns (e: (Timestamp, Digest))
    requires index != {}
    ensures e in index && forall f <- index :: e.0 <= f.0
  {
    var x :| x in index;
    e := x;
    if index != {x} {
      var y := EarliestExists(index - {x});
      e := if y.0 <= x.0 then y else x;
      forall f | f in index ensures e.0 <= f.0 {
        if f != x { assert f in index - {x}; }
      }
    }
  }

  // ----- The store -----

  class LmdbRepoStore {
    var main: Store
    var meta: map<Digest, Meta>
    var expiry: Index
    var recentlyUsed: Index

    ghost function State(): Db
      reads this
    {
      Db(main, meta, expiry, recentlyUsed)
    }

    constructor ()
      ensures State() == EMPTY
    {
      main, meta, expiry, recentlyUsed := map[], map[], {}, {};
    }

    method Get(id: Digest, now: Timestamp) returns (r: Outcome<Block>)
      modifies this
      ensures (r, State()) == GetStep(old(State()), id, now)
    {
      if id !in main {
        return NotFound;
      }
      if id in meta {
        var m := meta[id];
        if m.synced {
          if !m.pin {
            if (m.lastUsed, id) !in recentlyUsed {
              return Panic;
            }
            recentlyUsed := recentlyUsed - {(m.lastUsed, id)};
            recentlyUsed := recentlyUsed + {(now, id)};
          }
          meta := meta[id := m.(lastUsed := now)];
        }
      }
      r := if main[id].Id() != id then Panic else Done(main[id]);
    }

    method Put(b: Block) returns (id: Digest)
      modifies this
      ensures id == b.Id() && State() == PutStep(old(State()), b)
    {
      id := b.Id();
      main := main[id := b.Stripped()];
      if b.expiry.Some? {
        expiry := expiry + {(b.expiry.value, id)};
      }
    }

    method Del(id: Digest) returns (r: Outcome<(Block, nat)>)
      modifies this
      ensures (r, State()) == DelStep(old(State()), id)
    {
      if id !in main {
        return NotFound;
      }
      var b := main[id];
      var lru, exp := recentlyUsed, expiry;
      if id in meta && meta[id].lastUsed != 0 {
        if (meta[id].lastUsed, id) !in lru {
          return Panic;
        }
        lru := lru - {(meta[id].lastUsed, id)};
      }
      if b.expiry.Some? {
        if (b.expiry.value, id) !in exp {
          return Panic;
        }
        exp := exp - {(b.expiry.value, id)};
      }
      main, meta, expiry, recentlyUsed := main - {id}, meta - {id}, exp, lru;
      r := Done((b, Bare.BlockSize(b)));
    }

    method SetPin(id: Digest, add: bool) returns (r: Outcome<()>)
      modifies this
      ensures (r, State()) == SetPinStep(old(State()), id, add)
    {
      r := Done(());
      var m;
      if id in meta {
        m := meta[id];
        if add == m.pin {
          return;
        }
        m := m.(pin := add);
        if m.synced {
          if add {
            if (m.lastUsed, id) !in recentlyUsed {
              return Panic;
            }
            recentlyUsed := recentlyUsed - {(m.lastUsed, id)};
          } else {
            recentlyUsed := recentlyUsed + {(m.lastUsed, id)};
          }
        }
      } else if add {
        m := Meta(true, 0, false);
      } else {
        return;
      }
      meta := meta[id := m];
    }

    method HasBeenSynced(id: Digest, when: Timestamp)
      modifies this
      ensures State() == SyncedStep(old(State()), id, when)
    {
      var m;
      if id in meta {
        m := meta[id];
        if m.synced {
          return;
        }
        m := m.(synced := true, lastUsed := when);
        if !m.pin {
          recentlyUsed := recentlyUsed + {(when, id)};
        }
      } else {
        m := Meta(false, when, true);
        recentlyUsed := recentlyUsed + {(when, id)};
      }
      meta := meta[id := m];
    }

    /** The ids are read first, then deleted, each in its own transaction. */
    method RemoveExpired(now: Timestamp) returns (ok: bool, ghost order: seq<(Timestamp, Digest)>)
      modifies this
      ensures Descending(old(expiry), now, order)
      ensures (ok, State()) == DelAll(old(State()), Entries(order))
    {
      var entries := ReadExpired(expiry, now);
      order := entries;
      var ids := Entries(entries);
      assert ids[0..] == ids;
      ok := true;
      var i := 0;
      while i < |ids|
        invariant 0 <= i <= |ids| && ok
        invariant DelAll(State(), ids[i..]) == DelAll(old(State()), ids)
      {
        assert ids[i..][0] == ids[i] && ids[i..][1..] == ids[i + 1..];
        var r := Del(ids[i]);
        if !r.Done? {
          ok := false;
          return;
        }
        i := i + 1;
      }
      assert ids[i..] == [];
    }

    /** Oldest first, until `size` bytes are gone or the LRU is empty. */
    method RemoveLeastUsed(size: nat) returns (total: Outcome<nat>, ghost order: seq<(Timestamp, Digest)>)
      modifies this
      ensures Ascending(old(recentlyUsed), order)
      ensures (total, State()) == DelUntil(old(State()), Entries(order), size, 0)
    {
      var entries := ReadAll(recentlyUsed);
      order := entries;
      var ids := Entries(entries);
      assert ids[0..] == ids;
      var sum: nat := 0;
      var i := 0;
      while i < |ids|
        invariant 0 <= i <= |ids|
        invariant DelUntil(State(), ids[i..], size, sum) == DelUntil(old(State()), ids, size, 0)
      {
        assert ids[i..][0] == ids[i] && ids[i..][1..] == ids[i + 1..];
        var r := Del(ids[i]);
        if !r.Done? {
          return Panic, order;
        }
        sum := sum + r.value.1;
        if sum >= size {
          return Done(sum), order;
        }
        i := i + 1;
      }
      assert ids[i..] == [];
      total := Done(sum);
    }
  }

  /** `iter_prev_dup_from`: entries up to `now`, latest first. */
  method ReadExpired(index: Index, now: Timestamp) returns (order: seq<(Timestamp, Digest)>)
    ensures Descending(index, now, order)
  {
    var pending := set e | e in index && e.0 <= now;
    order := ReadBackwards(pending);
  }

  method ReadBackwards(index: Index) returns (order: seq<(Timestamp, Digest)>)
    ensures Distinct(order) && forall e :: e in order <==> e in index
    ensures forall i, j :: 0 <= i < j < |order| ==> order[j].0 <= order[i].0
  {
    var pending := index;
    order := [];
    while pending != {}
      invariant pending <= index
      invariant Distinct(order)
      invariant forall e :: e in order <==> e in index && e !in pending
      invariant forall i, j :: 0 <= i < j < |order| ==> order[j].0 <= order[i].0
      invariant forall e, i :: e in pending && 0 <= i < |order| ==> e.0 <= order[i].0
      decreases pending
    {
      ghost var latest := LatestExists(pending);
      var e :| e in pending && forall f <- pending :: f.0 <= e.0;
      pending := pending - {e};
      order := order + [e];
    }
  }

  /** `iter_start`: every entry, earliest first. */
  method ReadAll(index: Index) returns (order: seq<(Timestamp, Digest)>)
    ensures Ascending(index, order)
  {
    var pending := index;
    order := [];
    while pending != {}
      invariant pending <= index
      invariant Distinct(order)
      invariant forall e :: e in order <==> e in index && e !in pending
      invariant forall i, j :: 0 <= i < j < |order| ==> order[i].0 <= order[j].0
      invariant forall e, i :: e in pending && 0 <= i < |order| ==> order[i].0 <= e.0
      decreases pending
    {
      ghost var earliest := EarliestExists(pending);
      var e :| e in pending && forall f <- pending :: e.0 <= f.0;
      pending := pending - {e};
      order := order + [e];
    }
  }
}
