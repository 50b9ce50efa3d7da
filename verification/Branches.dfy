// Branch synchronization: which commits a peer is sent.

module Branches {
  import opened Types
  import opened Objects
  import ObjectOps
  import Loading

  // ----- The commit graph of a store -----

  function LoadPlain(s: Suite, st: Store, id: Digest): Result<Object, ParseError>
    requires Filed(st)
  {
    Load(s, st, id, None)
  }

  /** The deps of a loadable commit object. */
  function DepsOf(s: Suite, st: Store, id: Digest): seq<Digest>
    requires Filed(st)
  {
    match LoadPlain(s, st, id) case Ok(o) => o.deps case Err(_) => []
  }

  /** A commit the walk collects and looks below: loadable, not a root, not one to stop at. */
  predicate Expands(s: Suite, st: Store, stop: seq<Digest>, id: Digest)
    requires Filed(st)
  {
    LoadPlain(s, st, id).Ok? && DepsOf(s, st, id) != [] && id !in stop
  }

  /** A dep whose object is there but cannot be parsed. */
  predicate Corrupt(s: Suite, st: Store, id: Digest)
    requires Filed(st)
  {
    var r := LoadPlain(s, st, id); r.Err? && !r.error.MissingBlocks?
  }

  /** A chain of collected commits, each a dep of the one before. */
  ghost predicate Trail(s: Suite, st: Store, stop: seq<Digest>, p: seq<Digest>)
    requires Filed(st)
  {
    && p != []
    && (forall i :: 0 <= i < |p| ==> Expands(s, st, stop, p[i]))
    && (forall i :: 0 <= i < |p| - 1 ==> p[i + 1] in DepsOf(s, st, p[i]))
  }

  ghost predicate Reaches(s: Suite, st: Store, stop: seq<Digest>, from: Digest, to: Digest)
    requires Filed(st)
  {
    exists p :: Trail(s, st, stop, p) && p[0] == from && p[|p| - 1] == to
  }

  /** `x` is a non-root ancestor of one of `heads`, or one of them, through loadable objects. */
  ghost predicate Ancestor(s: Suite, st: Store, heads: seq<Digest>, x: Digest)
    requires Filed(st)
  {
    exists h <- heads :: Reaches(s, st, [], h, x)
  }

  /** Walking from `id` comes across a corrupt dep. */
  ghost predicate WalkFails(s: Suite, st: Store, stop: seq<Digest>, id: Digest)
    requires Filed(st)
  {
    exists a, d :: Reaches(s, st, stop, id, a) && d in DepsOf(s, st, a) && Corrupt(s, st, d)
  }

  /** `e` is the error with which some corrupt dep the walk comes across fails to load. */
  ghost predicate WalkFailsWith(s: Suite, st: Store, stop: seq<Digest>, id: Digest, e: ParseError)
    requires Filed(st)
  {
    exists a, d :: Reaches(s, st, stop, id, a) && d in DepsOf(s, st, a) && Corrupt(s, st, d) && LoadPlain(s, st, d) == Err(e)
  }

  /**
   * How far a walk goes, in terms of loading alone. It collects nothing else
   * than what loads, has deps and is not one to stop at, each a dep of one
   * collected, but for the first.
   */
  lemma ReachesMeans(s: Suite, st: Store, stop: seq<Digest>, from: Digest, to: Digest)
    requires Filed(st) && Reaches(s, st, stop, from, to)
    ensures var r := Load(s, st, to, None); r.Ok? && r.value.deps != [] && to !in stop
    ensures from != to ==>
              exists a :: Reaches(s, st, stop, from, a) && Load(s, st, a, None).Ok? && to in Load(s, st, a, None).value.deps
  {
    hide Load;
    var p :| Trail(s, st, stop, p) && p[0] == from && p[|p| - 1] == to;
    assert Expands(s, st, stop, p[|p| - 1]);
    if from != to {
      var q := p[..|p| - 1];
      var a := q[|q| - 1];
      assert Trail(s, st, stop, q) && q[0] == from;
      assert to in DepsOf(s, st, a) && Expands(s, st, stop, a);
      assert Reaches(s, st, stop, from, a);
    }
  }

  /** And it collects all of that: it starts, and goes on from what it has collected to every dep. */
  lemma ReachesGrows(s: Suite, st: Store, stop: seq<Digest>, from: Digest, to: Digest, dep: Digest)
    requires Filed(st) && Load(s, st, dep, None).Ok? && Load(s, st, dep, None).value.deps != [] && dep !in stop
    ensures Reaches(s, st, stop, dep, dep)
    ensures Reaches(s, st, stop, from, to) && Load(s, st, to, None).Ok? && dep in Load(s, st, to, None).value.deps ==>
              Reaches(s, st, stop, from, dep)
  {
    hide Load;
    assert Expands(s, st, stop, dep);
    ReachesSelf(s, st, stop, dep);
    if Reaches(s, st, stop, from, to) && dep in DepsOf(s, st, to) {
      var p :| Trail(s, st, stop, p) && p[0] == from && p[|p| - 1] == to;
      hide Expands;
      TrailSnoc(s, st, stop, p, dep);
    }
  }

  lemma TrailSnoc(s: Suite, st: Store, stop: seq<Digest>, p: seq<Digest>, dep: Digest)
    requires Filed(st) && Trail(s, st, stop, p) && Expands(s, st, stop, dep) && dep in DepsOf(s, st, p[|p| - 1])
    ensures Reaches(s, st, stop, p[0], dep)
  {
    hide Expands, DepsOf;
    var q := p + [dep];
    assert Trail(s, st, stop, q);
  }

  lemma ReachesSelf(s: Suite, st: Store, stop: seq<Digest>, id: Digest)
    requires Filed(st) && Expands(s, st, stop, id)
    ensures Reaches(s, st, stop, id, id)
  {
    hide Expands;
    assert Trail(s, st, stop, [id]);
  }

  lemma ReachesThrough(s: Suite, st: Store, stop: seq<Digest>, id: Digest, d: Digest, x: Digest)
    requires Filed(st) && Expands(s, st, stop, id) && d in DepsOf(s, st, id) && Reaches(s, st, stop, d, x)
    ensures Reaches(s, st, stop, id, x)
  {
    hide Expands, DepsOf;
    var p :| Trail(s, st, stop, p) && p[0] == d && p[|p| - 1] == x;
    var q := [id] + p;
    assert Trail(s, st, stop, q) by {
      forall i | 0 <= i < |q| - 1 ensures q[i + 1] in DepsOf(s, st, q[i]) {
        if i > 0 { assert q[i] == p[i - 1] && q[i + 1] == p[i]; }
      }
    }
  }

  // ----- The walk -----

  /** All the deps of `a` that the walk should collect are collected, and none is corrupt. */
  ghost predicate Settled(s: Suite, st: Store, stop: seq<Digest>, a: Digest, visited: set<Digest>)
    requires Filed(st)
  {
    forall d <- DepsOf(s, st, a) :: SettledDep(s, st, stop, d, visited)
  }

  ghost predicate SettledDep(s: Suite, st: Store, stop: seq<Digest>, d: Digest, visited: set<Digest>)
    requires Filed(st)
  {
    (Expands(s, st, stop, d) ==> d in visited) && !Corrupt(s, st, d)
  }

  /** Everything in `found` was reached from `id`, and is settled. */
  ghost predicate Explored(s: Suite, st: Store, stop: seq<Digest>, id: Digest, found: set<Digest>, visited: set<Digest>)
    requires Filed(st)
  {
    forall a <- found :: Reaches(s, st, stop, id, a) && Settled(s, st, stop, a, visited)
  }

  lemma LoadedIsItself(s: Suite, st: Store, id: Digest, key: Option<Key>)
    requires Filed(st) && Load(s, st, id, key).Ok?
    ensures id in st && Load(s, st, id, key).value.Id() == id
  {
    hide LoadDeps;
    assert id in st by { if id !in st { MissingRoot(st, id); } }
    LayoutEndsWith(st, id);
  }

  /** `load_branch` of `sync_req`: `visited` and `missing` come in and go out updated. */
  method LoadBranch(s: Suite, st: Store, cobj: Object, theirHeads: seq<Digest>,
                    visitedIn: set<Digest>, missingIn: set<Digest>)
    returns (error: Option<ParseError>, visited: set<Digest>, missing: set<Digest>)
    requires Filed(st) && cobj.blocks != []
    requires LoadPlain(s, st, cobj.Id()) == Ok(cobj) && cobj.Id() !in visitedIn
    ensures visitedIn <= visited
    ensures error == None ==>
              && (Expands(s, st, theirHeads, cobj.Id()) ==> cobj.Id() in visited)
              && Explored(s, st, theirHeads, cobj.Id(), visited - visitedIn, visited)
    ensures error.Some? ==> !error.value.MissingBlocks? && WalkFailsWith(s, st, theirHeads, cobj.Id(), error.value)
    decreases |st.Keys - visitedIn|
  {
    hide Load, Reaches, Settled, Loading.AbsentFrom;
    visited, missing, error := visitedIn, missingIn, None;
    var id := cobj.Id();
    LoadedIsItself(s, st, id, None);
    if cobj.deps != [] && id !in theirHeads {
      visited := visited + {id};
      ReachesSelf(s, st, theirHeads, id);
      var i := 0;
      while i < |cobj.deps|
        invariant 0 <= i <= |cobj.deps| && error == None
        invariant visitedIn + {id} <= visited
        invariant Explored(s, st, theirHeads, id, visited - visitedIn - {id}, visited)
        invariant forall j :: 0 <= j < i ==> SettledDep(s, st, theirHeads, cobj.deps[j], visited)
      {
        var dep := cobj.deps[i];
        var o := ObjectOps.LoadObject(s, st, dep, None);
        match o {
          case Ok(obj) =>
            if dep !in visited {
              LoadedIsItself(s, st, dep, None);
              Smaller(st.Keys, visitedIn, visited, id);
              ghost var before := visited;
              error, visited, missing := LoadBranch(s, st, obj, theirHeads, visited, missing);
              if error.Some? {
                FailsThrough(s, st, theirHeads, id, dep, error.value);
                return;
              }
              ExploredMore(s, st, theirHeads, id, dep, visitedIn + {id}, before, visited);
              assert visited - (visitedIn + {id}) == visited - visitedIn - {id};
              assert before - (visitedIn + {id}) == before - visitedIn - {id};
            }
          case Err(MissingBlocks(m)) =>
            missing := missing + (set x | x in m);
          case Err(e) =>
            assert Corrupt(s, st, dep) && LoadPlain(s, st, dep) == Err(e);
            assert WalkFailsWith(s, st, theirHeads, id, e);
            return Some(e), visited, missing;
        }
        i := i + 1;
      }
      assert Settled(s, st, theirHeads, id, visited) by { SettledAll(s, st, theirHeads, id, cobj.deps, visited); }
    }
  }

  lemma SettledAll(s: Suite, st: Store, stop: seq<Digest>, id: Digest, deps: seq<Digest>, visited: set<Digest>)
    requires Filed(st) && DepsOf(s, st, id) == deps
    requires forall j :: 0 <= j < |deps| ==> SettledDep(s, st, stop, deps[j], visited)
    ensures Settled(s, st, stop, id, visited)
  {
  }

  lemma Smaller(keys: set<Digest>, old': set<Digest>, new': set<Digest>, id: Digest)
    requires id in keys && id !in old' && old' + {id} <= new'
    ensures |keys - new'| < |keys - old'|
  {
    assert keys - new' <= (keys - old') - {id};
    SubsetSize(keys - new', (keys - old') - {id});
  }

  lemma {:induction false} SubsetSize(a: set<Digest>, b: set<Digest>)
    requires a <= b
    ensures |a| <= |b|
  {
    if a != {} {
      var x :| x in a;
      SubsetSize(a - {x}, b - {x});
    }
  }

  /** What was settled stays settled as more is collected; what the dep reached, its parent reaches. */
  lemma ExploredMore(s: Suite, st: Store, stop: seq<Digest>, id: Digest, dep: Digest,
                     base: set<Digest>, before: set<Digest>, visited: set<Digest>)
    requires Filed(st) && Expands(s, st, stop, id) && dep in DepsOf(s, st, id)
    requires base <= before <= visited
    requires Explored(s, st, stop, id, before - base, before)
    requires Explored(s, st, stop, dep, visited - before, visited)
    ensures Explored(s, st, stop, id, visited - base, visited)
  {
    hide Expands, Reaches, Corrupt;
    forall a | a in visited - base
      ensures Reaches(s, st, stop, id, a) && Settled(s, st, stop, a, visited)
    {
      if a in before {
        assert a in before - base;
        assert Settled(s, st, stop, a, before);
        forall d | d in DepsOf(s, st, a) ensures SettledDep(s, st, stop, d, visited) {
          assert SettledDep(s, st, stop, d, before);
        }
      } else {
        assert a in visited - before;
        ReachesThrough(s, st, stop, id, dep, a);
      }
    }
  }

  lemma FailsThrough(s: Suite, st: Store, stop: seq<Digest>, id: Digest, dep: Digest, e: ParseError)
    requires Filed(st) && Expands(s, st, stop, id) && dep in DepsOf(s, st, id) && WalkFailsWith(s, st, stop, dep, e)
    ensures WalkFailsWith(s, st, stop, id, e)
  {
    hide Expands, Reaches, DepsOf, LoadPlain;
    var a, d :| Reaches(s, st, stop, dep, a) && d in DepsOf(s, st, a) && Corrupt(s, st, d) && LoadPlain(s, st, d) == Err(e);
    ReachesThrough(s, st, stop, id, dep, a);
  }

  /** A collected set that is settled throughout has everything reachable from its start. */
  lemma {:induction false} TrailInside(s: Suite, st: Store, stop: seq<Digest>, p: seq<Digest>, visited: set<Digest>)
    requires Filed(st) && Trail(s, st, stop, p) && p[0] in visited
    requires forall a <- visited :: Settled(s, st, stop, a, visited)
    ensures p[|p| - 1] in visited
    decreases |p|
  {
    hide Expands, DepsOf, Corrupt;
    if |p| > 1 {
      assert Settled(s, st, stop, p[0], visited);
      assert p[1] in DepsOf(s, st, p[0]) && Expands(s, st, stop, p[1]);
      assert SettledDep(s, st, stop, p[1], visited);
      var tail := p[1..];
      assert Trail(s, st, stop, tail) by {
        forall i | 0 <= i < |tail| - 1 ensures tail[i + 1] in DepsOf(s, st, tail[i]) {
          assert tail[i] == p[i + 1] && tail[i + 1] == p[i + 2];
        }
      }
      TrailInside(s, st, stop, tail, visited);
    }
  }

  /** The outcome of a whole walk, started with nothing visited. */
  lemma WalkIsExact(s: Suite, st: Store, stop: seq<Digest>, id: Digest, visited: set<Digest>)
    requires Filed(st)
    requires Expands(s, st, stop, id) ==> id in visited
    requires Explored(s, st, stop, id, visited, visited)
    ensures forall x :: x in visited <==> Reaches(s, st, stop, id, x)
    ensures !WalkFails(s, st, stop, id)
  {
    hide Expands, DepsOf, Corrupt, Reaches;
    forall x | Reaches(s, st, stop, id, x)
      ensures x in visited
    {
      Unfold(s, st, stop, id, x, visited);
    }
    forall a, d | Reaches(s, st, stop, id, a) && d in DepsOf(s, st, a)
      ensures !Corrupt(s, st, d)
    {
      assert Settled(s, st, stop, a, visited);
      assert SettledDep(s, st, stop, d, visited);
    }
  }

  lemma Unfold(s: Suite, st: Store, stop: seq<Digest>, id: Digest, x: Digest, visited: set<Digest>)
    requires Filed(st) && Reaches(s, st, stop, id, x)
    requires Expands(s, st, stop, id) ==> id in visited
    requires Explored(s, st, stop, id, visited, visited)
    ensures x in visited
  {
    hide Expands, DepsOf, Corrupt, Settled;
    var p :| Trail(s, st, stop, p) && p[0] == id && p[|p| - 1] == x;
    assert Expands(s, st, stop, p[0]);
    TrailInside(s, st, stop, p, visited);
  }

  // ----- sync_req -----

  /** A walk from one of the heads fails, or one of them does not load. */
  ghost predicate HeadsFail(s: Suite, st: Store, stop: seq<Digest>, heads: seq<Digest>)
    requires Filed(st)
  {
    exists h <- heads :: LoadPlain(s, st, h).Err? || WalkFails(s, st, stop, h)
  }

  /** `e` is what the walk from `head` fails with: that of loading it, or that of a corrupt dep. */
  ghost predicate HeadFailsWith(s: Suite, st: Store, stop: seq<Digest>, head: Digest, e: ParseError)
    requires Filed(st)
  {
    LoadPlain(s, st, head) == Err(e) || (LoadPlain(s, st, head).Ok? && WalkFailsWith(s, st, stop, head, e))
  }

  /** `e` is what the walk from the first head from which it fails, fails with. */
  ghost predicate FirstHeadFailsWith(s: Suite, st: Store, stop: seq<Digest>, heads: seq<Digest>, e: ParseError)
    requires Filed(st)
  {
    exists i :: 0 <= i < |heads| && !HeadsFail(s, st, stop, heads[..i]) && HeadFailsWith(s, st, stop, heads[i], e)
  }

  lemma FailsWithSome(s: Suite, st: Store, stop: seq<Digest>, id: Digest, e: ParseError)
    requires Filed(st) && WalkFailsWith(s, st, stop, id, e)
    ensures WalkFails(s, st, stop, id)
  {
    hide Reaches, DepsOf, Corrupt, LoadPlain;
  }

  /** A first head that is not stored is reported missing. */
  lemma MissingHeadReported(s: Suite, st: Store, stop: seq<Digest>, heads: seq<Digest>, e: ParseError)
    requires Filed(st) && heads != [] && heads[0] !in st && FirstHeadFailsWith(s, st, stop, heads, e)
    ensures e == MissingBlocks([heads[0]])
  {
    hide Reaches, WalkFailsWith, WalkFails, LoadPlain;
    MissingLoads(s, st, heads[0]);
    forall j | 0 < j < |heads|
      ensures HeadsFail(s, st, stop, heads[..j])
    {
      assert heads[..j][0] == heads[0];
      assert heads[0] in heads[..j] && LoadPlain(s, st, heads[0]).Err?;
    }
  }

  lemma MissingLoads(s: Suite, st: Store, id: Digest)
    requires Filed(st) && id !in st
    ensures LoadPlain(s, st, id) == Err(MissingBlocks([id]))
  {
    MissingRoot(st, id);
  }

  /** The loops of `sync_req` over a list of heads. */
  method CollectHeads(s: Suite, st: Store, heads: seq<Digest>, theirHeads: seq<Digest>, missingIn: set<Digest>)
    returns (error: Option<ParseError>, collected: set<Digest>, missing: set<Digest>)
    requires Filed(st)
    ensures error.Some? <==> HeadsFail(s, st, theirHeads, heads)
    ensures error.Some? ==> FirstHeadFailsWith(s, st, theirHeads, heads, error.value)
    ensures error == None ==> forall x :: x in collected <==> exists h <- heads :: Reaches(s, st, theirHeads, h, x)
  {
    hide Load, Reaches, Expands, WalkFails, WalkFailsWith, Explored;
    error, collected, missing := None, {}, missingIn;
    var i := 0;
    while i < |heads|
      invariant 0 <= i <= |heads| && error == None
      invariant forall j :: 0 <= j < i ==> LoadPlain(s, st, heads[j]).Ok? && !WalkFails(s, st, theirHeads, heads[j])
      invariant forall x :: x in collected <==> exists h <- heads[..i] :: Reaches(s, st, theirHeads, h, x)
    {
      var id := heads[i];
      assert heads[..i + 1] == heads[..i] + [id];
      var cobj := ObjectOps.LoadObject(s, st, id, None);
      if cobj.Err? {
        assert id in heads && LoadPlain(s, st, id).Err?;
        assert !HeadsFail(s, st, theirHeads, heads[..i]) && HeadFailsWith(s, st, theirHeads, id, cobj.error);
        return Some(cobj.error), collected, missing;
      }
      LoadedIsItself(s, st, id, None);
      var visited;
      error, visited, missing := LoadBranch(s, st, cobj.value, theirHeads, {}, missing);
      if error.Some? {
        assert id in heads && WalkFails(s, st, theirHeads, id) by { FailsWithSome(s, st, theirHeads, id, error.value); }
        assert !HeadsFail(s, st, theirHeads, heads[..i]) && HeadFailsWith(s, st, theirHeads, id, error.value);
        return;
      }
      assert visited - {} == visited;
      WalkIsExact(s, st, theirHeads, id, visited);
      collected := collected + visited;
      i := i + 1;
    }
    assert heads[..i] == heads;
  }

  /** What `sync_req` answers before the filter. */
  ghost predicate Unsynced(s: Suite, st: Store, ours: seq<Digest>, theirs: seq<Digest>, x: Digest)
    requires Filed(st)
  {
    Ancestor(s, st, ours, x) && !Ancestor(s, st, theirs, x)
  }

  lemma DropStops(s: Suite, st: Store, stop: seq<Digest>, from: Digest, x: Digest)
    requires Filed(st) && Reaches(s, st, stop, from, x)
    ensures Reaches(s, st, [], from, x)
  {
    hide LoadPlain, DepsOf;
    var p :| Trail(s, st, stop, p) && p[0] == from && p[|p| - 1] == x;
    assert Trail(s, st, [], p);
  }

  lemma TrailFrom(s: Suite, st: Store, p: seq<Digest>, i: nat)
    requires Filed(st) && Trail(s, st, [], p) && i < |p|
    ensures Reaches(s, st, [], p[i], p[|p| - 1])
  {
    hide Expands, DepsOf;
    var q := p[i..];
    assert Trail(s, st, [], q) by {
      forall j | 0 <= j < |q| - 1 ensures q[j + 1] in DepsOf(s, st, q[j]) {
        assert q[j] == p[i + j] && q[j + 1] == p[i + j + 1];
      }
    }
  }

  /** A chain to something not below their heads meets none of them. */
  lemma AvoidStops(s: Suite, st: Store, theirs: seq<Digest>, from: Digest, x: Digest)
    requires Filed(st) && Reaches(s, st, [], from, x) && !Ancestor(s, st, theirs, x)
    ensures Reaches(s, st, theirs, from, x)
  {
    hide LoadPlain, DepsOf;
    var p :| Trail(s, st, [], p) && p[0] == from && p[|p| - 1] == x;
    forall i | 0 <= i < |p|
      ensures Expands(s, st, theirs, p[i])
    {
      assert Expands(s, st, [], p[i]);
      TrailFrom(s, st, p, i);
    }
    assert Trail(s, st, theirs, p);
  }

  /**
   * Stopping at their heads is only an optimization: what the pruned walks from
   * our heads collect, less the ancestors of their heads, is the difference of
   * the two full ancestries.
   */
  lemma PruningIsExact(s: Suite, st: Store, ours: seq<Digest>, theirs: seq<Digest>, x: Digest)
    requires Filed(st)
    ensures (exists h <- ours :: Reaches(s, st, theirs, h, x)) && !Ancestor(s, st, theirs, x)
       <==> Unsynced(s, st, ours, theirs, x)
  {
    hide Reaches;
    if !Ancestor(s, st, theirs, x) {
      if h :| h in ours && Reaches(s, st, theirs, h, x) {
        DropStops(s, st, theirs, h, x);
      }
      if h :| h in ours && Reaches(s, st, [], h, x) {
        AvoidStops(s, st, theirs, h, x);
      }
    }
  }

  /** `Branch::sync_req`; the Bloom filter is a predicate on ids. */
  method SyncReq(s: Suite, st: Store, ourHeads: seq<Digest>, theirHeads: seq<Digest>, filter: Digest -> bool)
    returns (r: Result<set<Digest>, ParseError>)
    requires Filed(st)
    ensures r.Err? <==> HeadsFail(s, st, theirHeads, ourHeads) || HeadsFail(s, st, [], theirHeads)
    ensures r.Err? ==> if HeadsFail(s, st, theirHeads, ourHeads) then FirstHeadFailsWith(s, st, theirHeads, ourHeads, r.error)
                       else FirstHeadFailsWith(s, st, [], theirHeads, r.error)
    ensures r.Ok? ==> forall x :: x in r.value <==> Unsynced(s, st, ourHeads, theirHeads, x) && !filter(x)
  {
    hide Reaches, HeadsFail, FirstHeadFailsWith, Unsynced;
    var error, ours, missing := CollectHeads(s, st, ourHeads, theirHeads, {});
    if error.Some? {
      return Err(error.value);
    }
    var theirs;
    error, theirs, missing := CollectHeads(s, st, theirHeads, [], missing);
    if error.Some? {
      return Err(error.value);
    }
    var all := ours - theirs;
    forall x ensures x in all <==> Unsynced(s, st, ourHeads, theirHeads, x) {
      PruningIsExact(s, st, ourHeads, theirHeads, x);
    }
    var result, rest := all, all;
    while rest != {}
      invariant rest <= all
      invariant result == set x | x in all && (x in rest || !filter(x))
      decreases rest
    {
      var id :| id in rest;
      rest := rest - {id};
      if filter(id) {
        result := result - {id};
      }
    }
    r := Ok(result);
  }

  // ----- What a sync achieves -----

  /** Every commit on a chain of deps from `h`, loadable or not. */
  ghost predicate Chain(s: Suite, st: Store, p: seq<Digest>)
    requires Filed(st)
  {
    p != [] && forall i :: 0 <= i < |p| - 1 ==> p[i + 1] in DepsOf(s, st, p[i])
  }

  ghost predicate Below(s: Suite, st: Store, heads: seq<Digest>, x: Digest)
    requires Filed(st)
  {
    exists p :: Chain(s, st, p) && p[0] in heads && p[|p| - 1] == x
  }

  lemma HasDeps(s: Suite, st: Store, id: Digest)
    requires Filed(st) && DepsOf(s, st, id) != []
    ensures Expands(s, st, [], id)
  {
    hide LoadPlain;
  }

  lemma BelowIsAncestor(s: Suite, st: Store, heads: seq<Digest>, x: Digest)
    requires Filed(st) && Below(s, st, heads, x) && LoadPlain(s, st, x).Ok? && DepsOf(s, st, x) != []
    ensures Ancestor(s, st, heads, x)
  {
    hide LoadPlain, DepsOf;
    var p :| Chain(s, st, p) && p[0] in heads && p[|p| - 1] == x;
    forall i | 0 <= i < |p|
      ensures Expands(s, st, [], p[i])
    {
      if i < |p| - 1 {
        assert p[i + 1] in DepsOf(s, st, p[i]);
        HasDeps(s, st, p[i]);
      }
    }
    hide Expands;
    assert Trail(s, st, [], p);
    assert Reaches(s, st, [], p[0], x);
  }

  lemma AncestorIsBelow(s: Suite, st: Store, heads: seq<Digest>, x: Digest)
    requires Filed(st) && Ancestor(s, st, heads, x)
    ensures Below(s, st, heads, x)
  {
    hide LoadPlain, DepsOf;
    var h :| h in heads && Reaches(s, st, [], h, x);
    var p :| Trail(s, st, [], p) && p[0] == h && p[|p| - 1] == x;
    assert Chain(s, st, p);
  }

  /**
   * Let a peer hold the ancestors of its heads and the roots below ours, and
   * let every commit below our heads load here. Once sent the answer, it holds
   * every commit below our heads exactly if it held those of the commits to be
   * sent that its filter accepts: a false positive of the filter loses a commit.
   */
  lemma SyncCompletes(s: Suite, st: Store, ours: seq<Digest>, theirs: seq<Digest>, filter: Digest -> bool,
                      peer: set<Digest>, sent: set<Digest>)
    requires Filed(st)
    requires forall x :: x in sent <==> Unsynced(s, st, ours, theirs, x) && !filter(x)
    requires forall x :: Ancestor(s, st, theirs, x) ==> x in peer
    requires forall x :: Below(s, st, ours, x) && DepsOf(s, st, x) == [] ==> x in peer
    requires forall x :: Below(s, st, ours, x) ==> LoadPlain(s, st, x).Ok?
    ensures (forall x :: Below(s, st, ours, x) ==> x in peer + sent)
       <==> (forall x :: Unsynced(s, st, ours, theirs, x) && filter(x) ==> x in peer)
  {
    hide LoadPlain, DepsOf, Ancestor, Below;
    forall x | Below(s, st, ours, x) && x !in peer + sent
      ensures Unsynced(s, st, ours, theirs, x) && filter(x)
    {
      BelowIsAncestor(s, st, ours, x);
    }
    forall x | Unsynced(s, st, ours, theirs, x)
      ensures Below(s, st, ours, x)
    {
      AncestorIsBelow(s, st, ours, x);
    }
  }

  /** A commit on top of a root; neither is looked into, so they are plain blocks. */
  function RootBlock(): Block {
    Block(None, None, [], NO_DEPS, None, [])
  }

  function ChildBlock(): Block {
    Block(None, None, [], ObjectIdList([RootBlock().Id()]), None, [])
  }

  function TwoCommits(): Store {
    map[RootBlock().Id() := RootBlock(), ChildBlock().Id() := ChildBlock()]
  }

  lemma TwoCommitsLoad(s: Suite)
    ensures var st, root, child := TwoCommits(), RootBlock().Id(), ChildBlock().Id();
            && Filed(st) && root != child
            && LoadPlain(s, st, root).Ok? && LoadPlain(s, st, child).Ok?
            && DepsOf(s, st, root) == [] && DepsOf(s, st, child) == [root]
  {
    var st := TwoCommits();
    assert RootBlock().Id() != ChildBlock().Id() by { assert RootBlock().deps.ids != ChildBlock().deps.ids; }
    OneBlockLoads(s, st, RootBlock(), None);
    OneBlockLoads(s, st, ChildBlock(), None);
  }

  /** Only the two are below the child. */
  lemma BelowChild(s: Suite, x: Digest)
    requires Filed(TwoCommits()) && Below(s, TwoCommits(), [ChildBlock().Id()], x)
    ensures x == ChildBlock().Id() || x == RootBlock().Id()
  {
    var st, root, child := TwoCommits(), RootBlock().Id(), ChildBlock().Id();
    TwoCommitsLoad(s);
    hide DepsOf, RootBlock, ChildBlock, TwoCommits, LoadPlain;
    var p :| Chain(s, st, p) && p[0] in [child] && p[|p| - 1] == x;
    forall i | 0 <= i < |p| - 1
      ensures p[i] != root
    {
      assert p[i + 1] in DepsOf(s, st, p[i]);
    }
    if |p| > 1 {
      assert p[1] in DepsOf(s, st, p[0]);
      assert |p| == 2;
    }
  }

  /**
   * An input on which the sync does not complete: a commit on top of a root, a
   * peer that has the root and no heads, and a filter that accepts everything.
   */
  lemma FalsePositiveLoses(s: Suite)
    ensures Filed(TwoCommits())
    ensures var st, root, child, filter := TwoCommits(), RootBlock().Id(), ChildBlock().Id(), (_: Digest) => true;
            && (forall x :: x in {} <==> Unsynced(s, st, [child], [], x) && !filter(x))
            && (forall x :: Ancestor(s, st, [], x) ==> x in {root})
            && (forall x :: Below(s, st, [child], x) && DepsOf(s, st, x) == [] ==> x in {root})
            && (forall x :: Below(s, st, [child], x) ==> LoadPlain(s, st, x).Ok?)
            && Unsynced(s, st, [child], [], child) && filter(child) && child !in {root}
            && Below(s, st, [child], child) && child !in {root} + {}
  {
    var st, root, child := TwoCommits(), RootBlock().Id(), ChildBlock().Id();
    TwoCommitsLoad(s);
    hide DepsOf, RootBlock, ChildBlock, TwoCommits, LoadPlain;
    forall x | Below(s, st, [child], x)
      ensures x == child || x == root
    {
      BelowChild(s, x);
    }
    assert Expands(s, st, [], child);
    assert Trail(s, st, [], [child]);
    assert Reaches(s, st, [], child, child);
    assert Chain(s, st, [child]);
  }
}
