// Commits: whether everything a commit builds on is available.

module Commits {
  import opened Types
  import opened Objects
  import opened Storing
  import ObjectOps
  import Sizes
  import Loading
  import Branches

  datatype CommitError = MissingBlocks(ids: seq<Digest>) | ObjectParseError | DeserializeError

  /** A commit with its two unserialized fields, the id and key of its object. */
  datatype Commit = Commit(id: Option<Digest>, key: Option<Key>, content: CommitContent)

  function FromParseError(e: ParseError): CommitError {
    match e
    case MissingBlocks(ids) => CommitError.MissingBlocks(ids)
    case _ => ObjectParseError
  }

  /** What an object reference holds, once loaded and read. */
  function Fetch(s: Suite, st: Store, ref: ObjectRef): Result<ObjectContent, CommitError>
    requires Filed(st)
  {
    match Load(s, st, ref.id, Some(ref.key))
    case Err(e) => Err(FromParseError(e))
    case Ok(o) =>
      match Content(s, o)
      case Err(_) => Err(ObjectParseError)
      case Ok(c) => Ok(c)
  }

  /** `Commit::load`, less the id and key it sets. */
  function CommitAt(s: Suite, st: Store, ref: ObjectRef): Result<CommitContent, CommitError>
    requires Filed(st)
  {
    match Fetch(s, st, ref)
    case Err(e) => Err(e)
    case Ok(CommitObject(c)) => Ok(c)
    case Ok(_) => Err(DeserializeError)
  }

  /** `load_body`. */
  function BodyOf(s: Suite, st: Store, c: CommitContent): Result<CommitBody, CommitError>
    requires Filed(st)
  {
    match Fetch(s, st, c.body)
    case Err(e) => Err(e)
    case Ok(BodyObject(b)) => Ok(b)
    case Ok(_) => Err(DeserializeError)
  }

  /** `deps_acks`: the acks, then the deps. */
  function DepsAcks(c: CommitContent): (r: seq<ObjectRef>)
    ensures forall ref :: ref in r <==> Names(c, ref)
  {
    c.acks + c.deps
  }

  /** `ref` is an ack or a dep of `c`. */
  ghost predicate Names(c: CommitContent, ref: ObjectRef) {
    ref in c.acks || ref in c.deps
  }

  method FetchObject(s: Suite, st: Store, ref: ObjectRef) returns (r: Result<ObjectContent, CommitError>)
    requires Filed(st)
    ensures r == Fetch(s, st, ref)
  {
    hide Load, Content;
    var o := ObjectOps.LoadObject(s, st, ref.id, Some(ref.key));
    if o.Err? {
      return Err(FromParseError(o.error));
    }
    var content := ObjectOps.ContentOf(s, o.value);
    r := match content case Err(_) => Err(ObjectParseError) case Ok(c) => Ok(c);
  }

  /** `Commit::load`. */
  method LoadCommit(s: Suite, st: Store, ref: ObjectRef) returns (r: Result<Commit, CommitError>)
    requires Filed(st)
    ensures r == match CommitAt(s, st, ref)
                 case Err(e) => Err(e)
                 case Ok(c) => Ok(Commit(Some(ref.id), Some(ref.key), c))
  {
    hide Fetch;
    var content := FetchObject(s, st, ref);
    match content {
      case Err(e) => r := Err(e);
      case Ok(CommitObject(c)) => r := Ok(Commit(Some(ref.id), Some(ref.key), c));
      case Ok(_) => r := Err(DeserializeError);
    }
  }

  /** `load_body`. */
  method LoadBody(s: Suite, st: Store, c: CommitContent) returns (r: Result<CommitBody, CommitError>)
    requires Filed(st)
    ensures r == BodyOf(s, st, c)
  {
    hide Fetch;
    var content := FetchObject(s, st, c.body);
    match content {
      case Err(e) => r := Err(e);
      case Ok(BodyObject(b)) => r := Ok(b);
      case Ok(_) => r := Err(DeserializeError);
    }
  }

  /**
   * A reference to an object made of `content` fetches it, from a store that
   * holds the object's blocks, exactly when the object has at most eight deps
   * or the blocks of its dep-list object are stored too; else blocks are missing.
   */
  lemma FetchesBack(s: Suite, content: ObjectContent, deps: seq<Digest>, expiry: Option<Timestamp>,
                    blockSize: nat, pubkey: Key, secret: Key, st: Store)
    requires s.Sound() && Filed(st) && blockSize + Sizes.HEADER < Sizes.USIZE_LIMIT
    requires Contains(st, New(s, content, deps, expiry, blockSize, pubkey, secret).blocks)
    ensures var o := New(s, content, deps, expiry, blockSize, pubkey, secret);
            && o.Key().Some?
            && var r := Fetch(s, st, ObjectRef(o.Id(), o.Key().value));
               if |deps| <= 8 || Contains(st, DepListOf(s, deps, blockSize, pubkey, secret)) then r == Ok(content)
               else r.Err? && r.error.MissingBlocks?
  {
    hide New, Load, Contains, Walk, DepListOf;
    RoundTrips(s, content, deps, expiry, blockSize, pubkey, secret, st);
  }

  /** An object made of a commit loads as that commit, on the same condition, and no other kind of object passes for one. */
  lemma CommitLoadsBack(s: Suite, content: ObjectContent, deps: seq<Digest>, expiry: Option<Timestamp>,
                        blockSize: nat, pubkey: Key, secret: Key, st: Store)
    requires s.Sound() && Filed(st) && blockSize + Sizes.HEADER < Sizes.USIZE_LIMIT
    requires Contains(st, New(s, content, deps, expiry, blockSize, pubkey, secret).blocks)
    ensures var o := New(s, content, deps, expiry, blockSize, pubkey, secret);
            && o.Key().Some?
            && var r := CommitAt(s, st, ObjectRef(o.Id(), o.Key().value));
               if !(|deps| <= 8 || Contains(st, DepListOf(s, deps, blockSize, pubkey, secret))) then Lacking(r)
               else if content.CommitObject? then r == Ok(content.commit)
               else r == Err(DeserializeError)
  {
    hide New, Fetch, Contains, DepListOf;
    FetchesBack(s, content, deps, expiry, blockSize, pubkey, secret, st);
  }

  /** A commit whose body refers to the object of a body has that body, and no other kind of object passes for one. */
  lemma BodyLoadsBack(s: Suite, c: CommitContent, content: ObjectContent, deps: seq<Digest>, expiry: Option<Timestamp>,
                      blockSize: nat, pubkey: Key, secret: Key, st: Store)
    requires s.Sound() && Filed(st) && blockSize + Sizes.HEADER < Sizes.USIZE_LIMIT
    requires var o := New(s, content, deps, expiry, blockSize, pubkey, secret);
             Contains(st, o.blocks) && o.Key().Some? && c.body == ObjectRef(o.Id(), o.Key().value)
    ensures if !(|deps| <= 8 || Contains(st, DepListOf(s, deps, blockSize, pubkey, secret))) then Lacking(BodyOf(s, st, c))
            else if content.BodyObject? then BodyOf(s, st, c) == Ok(content.body)
            else BodyOf(s, st, c) == Err(DeserializeError)
  {
    hide New, Fetch, Contains, DepListOf;
    FetchesBack(s, content, deps, expiry, blockSize, pubkey, secret, st);
  }

  predicate Malformed<T>(r: Result<T, CommitError>) {
    r.Err? && !r.error.MissingBlocks?
  }

  predicate Lacking<T>(r: Result<T, CommitError>) {
    r.Err? && r.error.MissingBlocks?
  }

  // ----- The graph -----

  /** The walk looks below a commit unless it is known to be a Branch commit. */
  predicate Expands(s: Suite, st: Store, c: CommitContent)
    requires Filed(st)
  {
    var b := BodyOf(s, st, c); !(b.Ok? && b.value.kind == Branch)
  }

  /** `d` is what one of the deps or acks of `c` loads as. */
  ghost predicate Child(s: Suite, st: Store, c: CommitContent, d: CommitContent)
    requires Filed(st)
  {
    Expands(s, st, c) && exists ref :: Names(c, ref) && CommitAt(s, st, ref) == Ok(d)
  }

  ghost predicate Chain(s: Suite, st: Store, q: seq<CommitContent>)
    requires Filed(st)
  {
    q != [] && forall i :: 0 <= i < |q| - 1 ==> Child(s, st, q[i], q[i + 1])
  }

  ghost predicate Reaches(s: Suite, st: Store, from: CommitContent, to: CommitContent)
    requires Filed(st)
  {
    exists q :: Chain(s, st, q) && q[0] == from && q[|q| - 1] == to
  }

  /** The body of `c`, or a dep or ack the walk follows, is there but is not what it should be. */
  ghost predicate MalformedAt(s: Suite, st: Store, c: CommitContent)
    requires Filed(st)
  {
    Malformed(BodyOf(s, st, c))
    || (Expands(s, st, c) && exists ref :: Names(c, ref) && Malformed(CommitAt(s, st, ref)))
  }

  /** The body of `c`, or a dep or ack the walk follows, has blocks missing. */
  ghost predicate LackingAt(s: Suite, st: Store, c: CommitContent)
    requires Filed(st)
  {
    Lacking(BodyOf(s, st, c))
    || (Expands(s, st, c) && exists ref :: Names(c, ref) && Lacking(CommitAt(s, st, ref)))
  }

  /** `x` is one of the blocks missing for the body of `c`, or for a dep or ack the walk follows. */
  ghost predicate LacksBlock(s: Suite, st: Store, c: CommitContent, x: Digest)
    requires Filed(st)
  {
    (Lacking(BodyOf(s, st, c)) && x in BodyOf(s, st, c).error.ids)
    || (Expands(s, st, c) && exists ref :: Names(c, ref) && Lacking(CommitAt(s, st, ref)) && x in CommitAt(s, st, ref).error.ids)
  }

  ghost predicate ReachesMalformed(s: Suite, st: Store, c: CommitContent)
    requires Filed(st)
  {
    exists d :: Reaches(s, st, c, d) && MalformedAt(s, st, d)
  }

  ghost predicate ReachesLacking(s: Suite, st: Store, c: CommitContent)
    requires Filed(st)
  {
    exists d :: Reaches(s, st, c, d) && LackingAt(s, st, d)
  }

  /** `x` is missing for a commit reached. */
  ghost predicate ReachesLackOf(s: Suite, st: Store, c: CommitContent, x: Digest)
    requires Filed(st)
  {
    exists d :: Reaches(s, st, c, d) && LacksBlock(s, st, d, x)
  }

  /** `ref` is a dep or ack the walk from `c` follows, if it goes everywhere. */
  ghost predicate Followed(s: Suite, st: Store, c: CommitContent, ref: ObjectRef)
    requires Filed(st)
  {
    exists d :: Reaches(s, st, c, d) && Expands(s, st, d) && Names(d, ref)
  }

  /** `x` is the id under which some reached commit loads. */
  ghost predicate ReachesId(s: Suite, st: Store, c: CommitContent, x: Digest)
    requires Filed(st)
  {
    exists ref: ObjectRef :: Followed(s, st, c, ref) && CommitAt(s, st, ref).Ok? && ref.id == x
  }

  lemma ReachesSelf(s: Suite, st: Store, c: CommitContent)
    requires Filed(st)
    ensures Reaches(s, st, c, c)
  {
    assert Chain(s, st, [c]);
  }

  lemma ReachesThrough(s: Suite, st: Store, c: CommitContent, d: CommitContent, e: CommitContent)
    requires Filed(st) && Child(s, st, c, d) && Reaches(s, st, d, e)
    ensures Reaches(s, st, c, e)
  {
    hide Child;
    var q :| Chain(s, st, q) && q[0] == d && q[|q| - 1] == e;
    var p := [c] + q;
    assert Chain(s, st, p) by {
      forall i | 0 <= i < |p| - 1 ensures Child(s, st, p[i], p[i + 1]) {
        if i > 0 { assert p[i] == q[i - 1] && p[i + 1] == q[i]; }
      }
    }
  }

  // ----- The walk -----

  lemma CommitIsStored(s: Suite, st: Store, ref: ObjectRef)
    requires Filed(st) && CommitAt(s, st, ref).Ok?
    ensures ref.id in st
  {
    hide Load, Content;
    Branches.LoadedIsItself(s, st, ref.id, Some(ref.key));
  }

  /** The two sets a walk keeps. */
  datatype Marks = Marks(visited: set<Digest>, missing: set<Digest>)

  function Entered(commit: Commit, visited: set<Digest>): set<Digest> {
    visited + if commit.id.Some? then {commit.id.value} else {}
  }

  lemma FewerLeft(commit: Commit, visited: set<Digest>, universe: set<Digest>)
    requires commit.id.Some? ==> commit.id.value in universe && commit.id.value !in visited
    ensures commit.id.Some? ==> |universe - Entered(commit, visited)| < |universe - visited|
  {
    if commit.id.Some? {
      Branches.Smaller(universe, visited, Entered(commit, visited), commit.id.value);
    }
  }

  /** What the inner `load_branch` makes of the two sets. `universe` bounds the ids it may visit. */
  ghost function Visit(s: Suite, st: Store, commit: Commit, m: Marks, universe: set<Digest>): (r: Result<Marks, CommitError>)
    requires Filed(st) && st.Keys <= universe && (commit.id.Some? ==> commit.id.value in universe)
    ensures r.Ok? ==> m.visited <= r.value.visited
    decreases if commit.id.None? then 1 else 0, |universe - m.visited|, 0
  {
    hide Fetch, CommitAt;
    if commit.id.Some? && commit.id.value in m.visited then Ok(m)
    else
      var visited := Entered(commit, m.visited);
      FewerLeft(commit, m.visited, universe);
      match BodyOf(s, st, commit.content)
      case Ok(b) =>
        if b.kind == Branch then Ok(Marks(visited, m.missing))
        else VisitRefs(s, st, DepsAcks(commit.content), Marks(visited, m.missing), universe)
      case Err(MissingBlocks(ids)) =>
        VisitRefs(s, st, DepsAcks(commit.content), Marks(visited, m.missing + set x | x in ids), universe)
      case Err(e) => Err(e)
  }

  /** Its loop over deps and acks. */
  ghost function VisitRefs(s: Suite, st: Store, refs: seq<ObjectRef>, m: Marks, universe: set<Digest>): (r: Result<Marks, CommitError>)
    requires Filed(st) && st.Keys <= universe
    ensures r.Ok? ==> m.visited <= r.value.visited
    decreases 0, |universe - m.visited|, |refs|
  {
    hide CommitAt;
    if refs == [] then Ok(m)
    else
      match CommitAt(s, st, refs[0])
      case Ok(c) =>
        CommitIsStored(s, st, refs[0]);
        (match Visit(s, st, Commit(Some(refs[0].id), Some(refs[0].key), c), m, universe)
         case Ok(n) =>
           Branches.SubsetSize(universe - n.visited, universe - m.visited);
           VisitRefs(s, st, refs[1..], n, universe)
         case Err(e) => Err(e))
      case Err(MissingBlocks(ids)) => VisitRefs(s, st, refs[1..], m.(missing := m.missing + set x | x in ids), universe)
      case Err(e) => Err(e)
  }

  /** How far a walk has come: the two sets the code keeps, and the commits it has looked at. */
  datatype Sets = Sets(visited: set<Digest>, missing: set<Digest>, seen: set<CommitContent>) {
    ghost predicate Within(w: Sets) {
      visited <= w.visited && missing <= w.missing && seen <= w.seen
    }
  }

  /** A commit reached from `c` that loads under `x` has been seen. */
  ghost predicate Read(s: Suite, st: Store, c: CommitContent, x: Digest, seen: set<CommitContent>)
    requires Filed(st)
  {
    exists ref: ObjectRef ::
      Followed(s, st, c, ref) && ref.id == x && CommitAt(s, st, ref).Ok? && CommitAt(s, st, ref).value in seen
  }

  /** What the walk has made of one dep or ack: visited its id, or noted what it lacks. */
  ghost predicate SettledRef(s: Suite, st: Store, ref: ObjectRef, w: Sets)
    requires Filed(st)
  {
    match CommitAt(s, st, ref)
    case Ok(_) => ref.id in w.visited
    case Err(MissingBlocks(ids)) => forall x <- ids :: x in w.missing
    case Err(_) => false
  }

  ghost predicate SettledBody(s: Suite, st: Store, c: CommitContent, w: Sets)
    requires Filed(st)
  {
    match BodyOf(s, st, c)
    case Ok(_) => true
    case Err(MissingBlocks(ids)) => forall x <- ids :: x in w.missing
    case Err(_) => false
  }

  ghost predicate Settled(s: Suite, st: Store, c: CommitContent, w: Sets)
    requires Filed(st)
  {
    SettledBody(s, st, c, w)
    && (Expands(s, st, c) ==> forall ref :: Names(c, ref) ==> SettledRef(s, st, ref, w))
  }

  /** Everything in `found` was reached from `c`, and is settled. */
  ghost predicate Explored(s: Suite, st: Store, c: CommitContent, found: set<CommitContent>, w: Sets)
    requires Filed(st)
  {
    forall d <- found :: Reaches(s, st, c, d) && Settled(s, st, d, w)
  }

  /** From `v` to `w`, every new id was reached and read, and every new lack is one. */
  ghost predicate Accounted(s: Suite, st: Store, c: Commit, v: Sets, w: Sets)
    requires Filed(st)
  {
    && v.Within(w)
    && (forall x <- w.visited - v.visited :: c.id == Some(x) || Read(s, st, c.content, x, w.seen))
    && (forall x <- w.missing - v.missing :: x !in st)
    && (forall x <- w.missing - v.missing :: ReachesLackOf(s, st, c.content, x))
  }

  lemma SettledStays(s: Suite, st: Store, c: CommitContent, v: Sets, w: Sets)
    requires Filed(st) && v.Within(w) && Settled(s, st, c, v)
    ensures Settled(s, st, c, w)
  {
    hide CommitAt, BodyOf;
    forall ref | Expands(s, st, c) && Names(c, ref)
      ensures SettledRef(s, st, ref, w)
    {
      assert SettledRef(s, st, ref, v);
    }
  }

  lemma RefsStay(s: Suite, st: Store, refs: seq<ObjectRef>, v: Sets, w: Sets)
    requires Filed(st) && v.Within(w)
    requires forall j :: 0 <= j < |refs| ==> SettledRef(s, st, refs[j], v)
    ensures forall j :: 0 <= j < |refs| ==> SettledRef(s, st, refs[j], w)
  {
    hide CommitAt;
  }

  /** Going on from `d`, a child of `c`, explores for `c`. */
  lemma ExploredMore(s: Suite, st: Store, c: CommitContent, d: CommitContent, base: set<CommitContent>, v: Sets, w: Sets)
    requires Filed(st) && (d == c || Child(s, st, c, d))
    requires v.Within(w) && Explored(s, st, c, v.seen - base, v) && Explored(s, st, d, w.seen - v.seen, w)
    ensures Explored(s, st, c, w.seen - base, w)
  {
    hide Reaches, Settled, Child;
    forall e | e in w.seen - base
      ensures Reaches(s, st, c, e) && Settled(s, st, e, w)
    {
      if e in v.seen {
        assert e in v.seen - base;
        SettledStays(s, st, e, v, w);
      } else {
        assert e in w.seen - v.seen;
        if d != c {
          ReachesThrough(s, st, c, d, e);
        }
      }
    }
  }

  lemma FollowedThrough(s: Suite, st: Store, c: CommitContent, d: CommitContent, ref: ObjectRef)
    requires Filed(st) && Child(s, st, c, d) && Followed(s, st, d, ref)
    ensures Followed(s, st, c, ref)
  {
    hide Reaches, Child, Expands;
    var e :| Reaches(s, st, d, e) && Expands(s, st, e) && Names(e, ref);
    ReachesThrough(s, st, c, d, e);
  }

  /** What has been read is still read when more has been seen, or from further up. */
  lemma ReadMore(s: Suite, st: Store, c: CommitContent, d: CommitContent, x: Digest, v: set<CommitContent>, w: set<CommitContent>)
    requires Filed(st) && (d == c || Child(s, st, c, d)) && v <= w && Read(s, st, d, x, v)
    ensures Read(s, st, c, x, w)
  {
    hide Followed, Child, CommitAt;
    var ref: ObjectRef :| Followed(s, st, d, ref) && ref.id == x && CommitAt(s, st, ref).Ok? && CommitAt(s, st, ref).value in v;
    if d != c {
      FollowedThrough(s, st, c, d, ref);
    }
  }

  /** Going on from the commit `ref` loads as accounts for the commit that names it. */
  lemma AccountedMore(s: Suite, st: Store, c: Commit, ref: ObjectRef, d: Commit, u: Sets, v: Sets, w: Sets)
    requires Filed(st) && Expands(s, st, c.content) && Names(c.content, ref)
    requires CommitAt(s, st, ref) == Ok(d.content) && d.id == Some(ref.id)
    requires Accounted(s, st, c, u, v) && Accounted(s, st, d, v, w)
    requires ref.id !in v.visited ==> d.content in w.seen
    ensures Accounted(s, st, c, u, w)
  {
    hide Reaches, CommitAt, Expands, Read, LacksBlock;
    assert Child(s, st, c.content, d.content);
    ReachesSelf(s, st, c.content);
    assert Followed(s, st, c.content, ref);
    hide Followed, Child;
    forall x | x in w.visited - u.visited
      ensures c.id == Some(x) || Read(s, st, c.content, x, w.seen)
    {
      if x in v.visited {
        assert x in v.visited - u.visited;
        if c.id != Some(x) {
          ReadMore(s, st, c.content, c.content, x, v.seen, w.seen);
        }
      } else {
        assert x in w.visited - v.visited;
        if x == ref.id {
          assert Read(s, st, c.content, x, w.seen) by { SeenIsRead(s, st, c.content, ref, w.seen); }
        } else {
          ReadMore(s, st, c.content, d.content, x, w.seen, w.seen);
        }
      }
    }
    forall x | x in w.missing - u.missing
      ensures x !in st && ReachesLackOf(s, st, c.content, x)
    {
      if x in v.missing {
        assert x in v.missing - u.missing;
      } else {
        assert x in w.missing - v.missing;
        var e :| Reaches(s, st, d.content, e) && LacksBlock(s, st, e, x);
        ReachesThrough(s, st, c.content, d.content, e);
      }
    }
  }

  lemma SeenIsRead(s: Suite, st: Store, c: CommitContent, ref: ObjectRef, seen: set<CommitContent>)
    requires Filed(st) && Followed(s, st, c, ref) && CommitAt(s, st, ref).Ok? && CommitAt(s, st, ref).value in seen
    ensures Read(s, st, c, ref.id, seen)
  {
  }

  lemma MalformedThrough(s: Suite, st: Store, c: CommitContent, d: CommitContent)
    requires Filed(st) && Child(s, st, c, d) && ReachesMalformed(s, st, d)
    ensures ReachesMalformed(s, st, c)
  {
    hide Reaches, Child, MalformedAt;
    var e :| Reaches(s, st, d, e) && MalformedAt(s, st, e);
    ReachesThrough(s, st, c, d, e);
  }

  /** Missing blocks are reported as a non-empty list of ids that are not stored. */
  lemma FetchMissesAbsent(s: Suite, st: Store, ref: ObjectRef)
    requires Filed(st)
    ensures var r := Fetch(s, st, ref);
            r.Err? && r.error.MissingBlocks? ==> Loading.AbsentFrom(st, r.error.ids)
  {
    hide Load, Content;
    Loading.LoadMissesAbsent(s, st, ref.id, Some(ref.key));
  }

  lemma RefMissesAbsent(s: Suite, st: Store, ref: ObjectRef)
    requires Filed(st) && Lacking(CommitAt(s, st, ref))
    ensures Loading.AbsentFrom(st, CommitAt(s, st, ref).error.ids)
  {
    hide Fetch;
    FetchMissesAbsent(s, st, ref);
  }

  /** The state of the walk below `commit`, itself being looked at: all but it is settled. */
  ghost predicate Under(s: Suite, st: Store, commit: Commit, u: Sets, w: Sets)
    requires Filed(st)
  {
    && Accounted(s, st, commit, u, w)
    && (commit.id.Some? ==> commit.id.value in w.visited && commit.id.value !in u.visited)
    && commit.content in w.seen && SettledBody(s, st, commit.content, w)
    && Explored(s, st, commit.content, w.seen - (u.seen + {commit.content}), w)
  }

  lemma NothingNew(s: Suite, st: Store, c: CommitContent, u: Sets)
    requires Filed(st)
    ensures Explored(s, st, c, u.seen - u.seen, u)
    ensures forall commit: Commit :: Accounted(s, st, commit, u, u)
  {
    hide Reaches, ReachesId, ReachesLackOf, Settled;
  }

  lemma ReachesMalformedHere(s: Suite, st: Store, c: CommitContent)
    requires Filed(st) && MalformedAt(s, st, c)
    ensures ReachesMalformed(s, st, c)
  {
    hide MalformedAt;
    ReachesSelf(s, st, c);
  }

  lemma MalformedBody(s: Suite, st: Store, c: CommitContent)
    requires Filed(st) && Malformed(BodyOf(s, st, c))
    ensures ReachesMalformed(s, st, c)
  {
    ReachesMalformedHere(s, st, c);
  }

  lemma MalformedRef(s: Suite, st: Store, c: CommitContent, ref: ObjectRef)
    requires Filed(st) && Expands(s, st, c) && Names(c, ref) && Malformed(CommitAt(s, st, ref))
    ensures ReachesMalformed(s, st, c)
  {
    hide CommitAt, Expands;
    ReachesMalformedHere(s, st, c);
  }

  /** The commit has been entered and its body looked at. */
  lemma Begun(s: Suite, st: Store, commit: Commit, u: Sets, w: Sets)
    requires Filed(st)
    requires commit.id.Some? ==> commit.id.value !in u.visited
    requires w.visited == u.visited + (if commit.id.Some? then {commit.id.value} else {})
    requires w.seen == u.seen + {commit.content}
    requires !Malformed(BodyOf(s, st, commit.content))
    requires var body := BodyOf(s, st, commit.content);
             w.missing == u.missing + if body.Err? then set x | x in body.error.ids else {}
    ensures Under(s, st, commit, u, w)
    ensures var body := BodyOf(s, st, commit.content);
            Expands(s, st, commit.content) <==> !(body.Ok? && body.value.kind == Branch)
  {
    hide Fetch, CommitAt, Reaches, ReachesId, Settled;
    var c := commit.content;
    var body := BodyOf(s, st, c);
    if body.Err? {
      FetchMissesAbsent(s, st, c.body);
      ReachesSelf(s, st, c);
      assert forall x <- body.error.ids :: LacksBlock(s, st, c, x);
    }
    assert w.seen - (u.seen + {c}) == {};
  }

  /** All of the commit has been looked at. */
  lemma Finished(s: Suite, st: Store, commit: Commit, u: Sets, w: Sets)
    requires Filed(st) && Under(s, st, commit, u, w)
    requires Expands(s, st, commit.content) ==>
               forall j :: 0 <= j < |DepsAcks(commit.content)| ==> SettledRef(s, st, DepsAcks(commit.content)[j], w)
    ensures Explored(s, st, commit.content, w.seen - u.seen, w)
    ensures Accounted(s, st, commit, u, w)
    ensures commit.content in w.seen && (commit.id.Some? ==> commit.id.value in w.visited)
  {
    hide Expands, Reaches, SettledRef, SettledBody, Accounted;
    var c := commit.content;
    ReachesSelf(s, st, c);
    forall ref | Expands(s, st, c) && Names(c, ref)
      ensures SettledRef(s, st, ref, w)
    {
      assert ref in DepsAcks(c);
    }
    assert Settled(s, st, c, w);
    forall d | d in w.seen - u.seen
      ensures Reaches(s, st, c, d) && Settled(s, st, d, w)
    {
      if d != c {
        assert d in w.seen - (u.seen + {c});
      }
    }
  }

  /** A dep or ack that loads may be walked from here. */
  lemma Entering(s: Suite, st: Store, commit: Commit, u: Sets, v: Sets, ref: ObjectRef, d: Commit, universe: set<Digest>)
    requires Filed(st) && Under(s, st, commit, u, v)
    requires st.Keys <= universe && (commit.id.Some? ==> commit.id.value in universe)
    requires Expands(s, st, commit.content) && Names(commit.content, ref)
    requires CommitAt(s, st, ref) == Ok(d.content) && d.id == Some(ref.id)
    ensures Child(s, st, commit.content, d.content) && ref.id in universe
    ensures commit.id.Some? ==> |universe - v.visited| < |universe - u.visited|
  {
    hide CommitAt, Expands, Explored, ReachesId, ReachesLackOf, SettledBody;
    CommitIsStored(s, st, ref);
    if commit.id.Some? {
      Branches.Smaller(universe, u.visited, v.visited, commit.id.value);
    }
  }

  /** The walk of a dep or ack has come back. */
  lemma Returned(s: Suite, st: Store, commit: Commit, u: Sets, v: Sets, w: Sets, ref: ObjectRef, d: Commit)
    requires Filed(st) && Under(s, st, commit, u, v)
    requires Expands(s, st, commit.content) && Names(commit.content, ref)
    requires CommitAt(s, st, ref) == Ok(d.content) && d.id == Some(ref.id)
    requires Accounted(s, st, d, v, w) && ref.id in w.visited
    requires ref.id !in v.visited ==> d.content in w.seen
    requires Explored(s, st, d.content, w.seen - v.seen, w)
    ensures Under(s, st, commit, u, w) && SettledRef(s, st, ref, w) && v.Within(w)
  {
    assert v.Within(w);
    assert SettledBody(s, st, commit.content, w) by { hide BodyOf; }
    hide CommitAt, BodyOf, Expands, Explored, ReachesId, ReachesLackOf, SettledBody;
    assert Child(s, st, commit.content, d.content);
    AccountedMore(s, st, commit, ref, d, u, v, w);
    ExploredMore(s, st, commit.content, d.content, u.seen + {commit.content}, v, w);
  }

  /** A dep or ack has blocks missing. */
  lemma RefLacking(s: Suite, st: Store, commit: Commit, u: Sets, v: Sets, w: Sets, ref: ObjectRef)
    requires Filed(st) && Under(s, st, commit, u, v)
    requires Expands(s, st, commit.content) && Names(commit.content, ref)
    requires Lacking(CommitAt(s, st, ref))
    requires w == v.(missing := v.missing + set x | x in CommitAt(s, st, ref).error.ids)
    ensures Under(s, st, commit, u, w) && SettledRef(s, st, ref, w) && v.Within(w)
  {
    var c := commit.content;
    assert SettledBody(s, st, c, w) by { hide BodyOf; }
    assert SettledRef(s, st, ref, w) by { hide CommitAt; }
    assert forall x <- CommitAt(s, st, ref).error.ids :: LacksBlock(s, st, c, x) by { hide CommitAt, Expands, BodyOf; }
    RefMissesAbsent(s, st, ref);
    hide CommitAt, SettledBody, SettledRef, LacksBlock, Expands, Child;
    MoreLacking(s, st, commit, u, v, w);
    hide Accounted;
    assert Explored(s, st, c, w.seen - v.seen, w) by { assert w.seen - v.seen == {}; }
    ExploredMore(s, st, c, c, u.seen + {c}, v, w);
  }

  lemma MoreLacking(s: Suite, st: Store, commit: Commit, u: Sets, v: Sets, w: Sets)
    requires Filed(st) && Accounted(s, st, commit, u, v)
    requires v.Within(w) && w.visited == v.visited && w.seen == v.seen
    requires forall x <- w.missing - v.missing :: x !in st && LacksBlock(s, st, commit.content, x)
    ensures Accounted(s, st, commit, u, w)
  {
    hide Reaches, ReachesId, LacksBlock;
    ReachesSelf(s, st, commit.content);
    forall x | x in w.missing - u.missing
      ensures x !in st && ReachesLackOf(s, st, commit.content, x)
    {
      assert x in w.missing - v.missing || x in v.missing - u.missing;
    }
  }

  function Outcome(error: Option<CommitError>, visited: set<Digest>, missing: set<Digest>): Result<Marks, CommitError> {
    match error
    case None => Ok(Marks(visited, missing))
    case Some(e) => Err(e)
  }

  lemma VisitNothing(s: Suite, st: Store, refs: seq<ObjectRef>, m: Marks, universe: set<Digest>)
    requires Filed(st) && st.Keys <= universe && refs == []
    ensures VisitRefs(s, st, refs, m, universe) == Ok(m)
  {
  }

  lemma VisitStep(s: Suite, st: Store, refs: seq<ObjectRef>, i: nat, m: Marks, universe: set<Digest>)
    requires Filed(st) && st.Keys <= universe && i < |refs|
    ensures CommitAt(s, st, refs[i]).Ok? ==>
              refs[i].id in universe
              && var r := Visit(s, st, Commit(Some(refs[i].id), Some(refs[i].key), CommitAt(s, st, refs[i]).value), m, universe);
                 VisitRefs(s, st, refs[i..], m, universe) == if r.Ok? then VisitRefs(s, st, refs[i + 1..], r.value, universe) else r
    ensures Lacking(CommitAt(s, st, refs[i])) ==>
              VisitRefs(s, st, refs[i..], m, universe)
              == VisitRefs(s, st, refs[i + 1..], m.(missing := m.missing + set x | x in CommitAt(s, st, refs[i]).error.ids), universe)
    ensures Malformed(CommitAt(s, st, refs[i])) ==>
              VisitRefs(s, st, refs[i..], m, universe) == Err(CommitAt(s, st, refs[i]).error)
  {
    hide CommitAt, Visit;
    assert refs[i..][1..] == refs[i + 1..] && refs[i..][0] == refs[i];
    if CommitAt(s, st, refs[i]).Ok? {
      CommitIsStored(s, st, refs[i]);
    }
  }

  /**
   * The inner `load_branch` of `verify_deps`: the sets come in and go out
   * updated. `universe` bounds the ids it may visit.
   */
  method LoadBranch(s: Suite, st: Store, commit: Commit, visitedIn: set<Digest>, missingIn: set<Digest>,
                    ghost seenIn: set<CommitContent>, ghost universe: set<Digest>)
    returns (error: Option<CommitError>, visited: set<Digest>, missing: set<Digest>, ghost seen: set<CommitContent>)
    requires Filed(st)
    requires st.Keys <= universe && (commit.id.Some? ==> commit.id.value in universe)
    ensures Outcome(error, visited, missing) == Visit(s, st, commit, Marks(visitedIn, missingIn), universe)
    ensures error.Some? ==> !error.value.MissingBlocks? && ReachesMalformed(s, st, commit.content)
    ensures error == None ==>
              var v, w := Sets(visitedIn, missingIn, seenIn), Sets(visited, missing, seen);
              && Accounted(s, st, commit, v, w)
              && (commit.id.Some? ==> commit.id.value in visited)
              && (commit.id.None? || commit.id.value !in visitedIn ==> commit.content in seen)
              && Explored(s, st, commit.content, seen - seenIn, w)
    decreases if commit.id.None? then 1 else 0, |universe - visitedIn|, 1
  {
    hide CommitAt, BodyOf, ReachesMalformed, Explored, Accounted, Under, SettledRef, Expands, DepsAcks,
         Child, Sets.Within, VisitRefs;
    error, visited, missing, seen := None, visitedIn, missingIn, seenIn;
    ghost var u := Sets(visitedIn, missingIn, seenIn);
    var c := commit.content;
    if commit.id.Some? {
      if commit.id.value in visited {
        NothingNew(s, st, c, u);
        return;
      }
      visited := visited + {commit.id.value};
    }
    assert visited == Entered(commit, visitedIn);
    seen := seen + {c};
    var body := LoadBody(s, st, c);
    var isRoot := false;
    match body {
      case Ok(b) => isRoot := b.kind == Branch;
      case Err(MissingBlocks(ids)) => missing := missing + (set x | x in ids);
      case Err(e) =>
        MalformedBody(s, st, c);
        return Some(e), visited, missing, seen;
    }
    Begun(s, st, commit, u, Sets(visited, missing, seen));
    if isRoot {
      Finished(s, st, commit, u, Sets(visited, missing, seen));
      return;
    }
    error, visited, missing, seen := LoadRefs(s, st, commit, visited, missing, seen, u, universe);
    if error == None {
      Finished(s, st, commit, u, Sets(visited, missing, seen));
    }
  }

  /** The loop of `load_branch` over the deps and acks; `u` is where the walk of `commit` began. */
  method LoadRefs(s: Suite, st: Store, commit: Commit, visitedIn: set<Digest>, missingIn: set<Digest>,
                  ghost seenIn: set<CommitContent>, ghost u: Sets, ghost universe: set<Digest>)
    returns (error: Option<CommitError>, visited: set<Digest>, missing: set<Digest>, ghost seen: set<CommitContent>)
    requires Filed(st)
    requires st.Keys <= universe && (commit.id.Some? ==> commit.id.value in universe)
    requires Under(s, st, commit, u, Sets(visitedIn, missingIn, seenIn)) && Expands(s, st, commit.content)
    ensures Outcome(error, visited, missing)
            == VisitRefs(s, st, DepsAcks(commit.content), Marks(visitedIn, missingIn), universe)
    ensures error.Some? ==> !error.value.MissingBlocks? && ReachesMalformed(s, st, commit.content)
    ensures error == None ==>
              var w := Sets(visited, missing, seen);
              && Under(s, st, commit, u, w)
              && forall j :: 0 <= j < |DepsAcks(commit.content)| ==> SettledRef(s, st, DepsAcks(commit.content)[j], w)
    decreases if commit.id.None? then 1 else 0, |universe - u.visited|, 0
  {
    hide CommitAt, BodyOf, ReachesMalformed, Explored, Accounted, Under, SettledRef, Expands, DepsAcks,
         Child, Sets.Within, Visit, VisitRefs;
    error, visited, missing, seen := None, visitedIn, missingIn, seenIn;
    var c := commit.content;
    var refs := DepsAcks(c);
    var i := 0;
    assert refs[0..] == refs;
    while i < |refs|
      invariant 0 <= i <= |refs| && error == None
      invariant VisitRefs(s, st, refs[i..], Marks(visited, missing), universe)
                == VisitRefs(s, st, refs, Marks(visitedIn, missingIn), universe)
      invariant Under(s, st, commit, u, Sets(visited, missing, seen))
      invariant forall j :: 0 <= j < i ==> SettledRef(s, st, refs[j], Sets(visited, missing, seen))
    {
      var ref := refs[i];
      var dep := LoadCommit(s, st, ref);
      ghost var v := Sets(visited, missing, seen);
      VisitStep(s, st, refs, i, Marks(visited, missing), universe);
      match dep {
        case Ok(d) =>
          Entering(s, st, commit, u, v, ref, d, universe);
          error, visited, missing, seen := LoadBranch(s, st, d, visited, missing, seen, universe);
          if error.Some? {
            MalformedThrough(s, st, c, d.content);
            return;
          }
          Returned(s, st, commit, u, v, Sets(visited, missing, seen), ref, d);
        case Err(MissingBlocks(ids)) =>
          missing := missing + (set x | x in ids);
          RefLacking(s, st, commit, u, v, Sets(visited, missing, seen), ref);
        case Err(e) =>
          MalformedRef(s, st, c, ref);
          return Some(e), visited, missing, seen;
      }
      RefsStay(s, st, refs[..i], v, Sets(visited, missing, seen));
      i := i + 1;
    }
    VisitNothing(s, st, refs[i..], Marks(visited, missing), universe);
  }

  // ----- verify_deps -----

  /** References the walk from `c` follows to the same id that load, load as the same commit. */
  ghost predicate OneReading(s: Suite, st: Store, c: CommitContent)
    requires Filed(st)
  {
    forall r1: ObjectRef, r2: ObjectRef ::
      Followed(s, st, c, r1) && Followed(s, st, c, r2) && r1.id == r2.id && CommitAt(s, st, r1).Ok? && CommitAt(s, st, r2).Ok?
      ==> CommitAt(s, st, r1) == CommitAt(s, st, r2)
  }

  /** The id set in a commit, if the walk comes back to it, is that of this commit. */
  ghost predicate TrueId(s: Suite, st: Store, c: Commit)
    requires Filed(st)
  {
    forall ref: ObjectRef ::
      Followed(s, st, c.content, ref) && c.id == Some(ref.id) && CommitAt(s, st, ref).Ok? ==> CommitAt(s, st, ref) == Ok(c.content)
  }

  ghost predicate ReadInOneWay(s: Suite, st: Store, c: Commit)
    requires Filed(st)
  {
    OneReading(s, st, c.content) && TrueId(s, st, c)
  }

  /**
   * When ids are read in one way, what a walk from `commit` has looked at is
   * closed: visited ids were read, and there is one way to read them.
   */
  lemma ChildSeen(s: Suite, st: Store, commit: Commit, w: Sets, c: CommitContent, d: CommitContent)
    requires Filed(st) && ReadInOneWay(s, st, commit)
    requires commit.content in w.seen && Accounted(s, st, commit, Sets({}, {}, {}), w)
    requires Reaches(s, st, commit.content, c) && Settled(s, st, c, w) && Child(s, st, c, d)
    ensures d in w.seen
  {
    hide CommitAt, SettledBody, Expands, ReachesLackOf, Reaches;
    var ref :| Names(c, ref) && CommitAt(s, st, ref) == Ok(d);
    assert Followed(s, st, commit.content, ref);
    hide Followed;
    assert SettledRef(s, st, ref, w);
    assert ref.id in w.visited - {};
  }

  lemma {:induction false} ChainSeen(s: Suite, st: Store, q: seq<CommitContent>, seen: set<CommitContent>)
    requires Filed(st) && Chain(s, st, q) && q[0] in seen
    requires forall c, d :: c in seen && Child(s, st, c, d) ==> d in seen
    ensures q[|q| - 1] in seen
    decreases |q|
  {
    hide Child;
    if |q| > 1 {
      assert Child(s, st, q[0], q[1]);
      var tail := q[1..];
      assert Chain(s, st, tail) by {
        forall i | 0 <= i < |tail| - 1 ensures Child(s, st, tail[i], tail[i + 1]) {
          assert tail[i] == q[i + 1] && tail[i + 1] == q[i + 2];
        }
      }
      ChainSeen(s, st, tail, seen);
    }
  }

  /** Then a finished walk has looked at exactly the commits it reaches. */
  lemma SeenIsReached(s: Suite, st: Store, commit: Commit, w: Sets, d: CommitContent)
    requires Filed(st) && ReadInOneWay(s, st, commit)
    requires commit.content in w.seen && Accounted(s, st, commit, Sets({}, {}, {}), w)
    requires Explored(s, st, commit.content, w.seen, w)
    ensures d in w.seen <==> Reaches(s, st, commit.content, d)
  {
    hide Settled, Child, Accounted, ReadInOneWay;
    if Reaches(s, st, commit.content, d) {
      var q :| Chain(s, st, q) && q[0] == commit.content && q[|q| - 1] == d;
      forall a, b | a in w.seen && Child(s, st, a, b)
        ensures b in w.seen
      {
        ChildSeen(s, st, commit, w, a, b);
      }
      ChainSeen(s, st, q, w.seen);
    }
  }

  /** A settled commit is well formed, and what it lacks is noted. */
  lemma SettledMeans(s: Suite, st: Store, c: CommitContent, w: Sets)
    requires Filed(st) && Settled(s, st, c, w)
    ensures !MalformedAt(s, st, c)
    ensures forall x :: LacksBlock(s, st, c, x) ==> x in w.missing
    ensures LackingAt(s, st, c) ==> w.missing != {}
  {
    hide Fetch, CommitAt, BodyOf, Expands;
    forall x | LacksBlock(s, st, c, x)
      ensures x in w.missing
    {
      if !(Lacking(BodyOf(s, st, c)) && x in BodyOf(s, st, c).error.ids) {
        var ref :| Names(c, ref) && Lacking(CommitAt(s, st, ref)) && x in CommitAt(s, st, ref).error.ids;
        assert SettledRef(s, st, ref, w);
      }
    }
    if LackingAt(s, st, c) {
      LackingLacks(s, st, c);
    }
  }

  /** What lacks blocks lacks some block. */
  lemma LackingLacks(s: Suite, st: Store, c: CommitContent)
    requires Filed(st)
    ensures LackingAt(s, st, c) <==> exists x :: LacksBlock(s, st, c, x)
  {
    hide Fetch, CommitAt, BodyOf, Expands;
    if Lacking(BodyOf(s, st, c)) {
      BodyMissesAbsent(s, st, c);
      assert LacksBlock(s, st, c, BodyOf(s, st, c).error.ids[0]);
    } else if LackingAt(s, st, c) {
      var ref :| Names(c, ref) && Lacking(CommitAt(s, st, ref));
      RefMissesAbsent(s, st, ref);
      assert LacksBlock(s, st, c, CommitAt(s, st, ref).error.ids[0]);
    }
  }

  lemma BodyMissesAbsent(s: Suite, st: Store, c: CommitContent)
    requires Filed(st) && Lacking(BodyOf(s, st, c))
    ensures Loading.AbsentFrom(st, BodyOf(s, st, c).error.ids)
  {
    hide Fetch;
    FetchMissesAbsent(s, st, c.body);
  }

  /** What a finished walk, started with nothing, has found out if ids are read in one way. */
  lemma WalkIsExact(s: Suite, st: Store, commit: Commit, w: Sets)
    requires Filed(st) && ReadInOneWay(s, st, commit)
    requires commit.content in w.seen && (commit.id.Some? ==> commit.id.value in w.visited)
    requires Accounted(s, st, commit, Sets({}, {}, {}), w) && Explored(s, st, commit.content, w.seen, w)
    ensures !ReachesMalformed(s, st, commit.content)
    ensures forall x :: x in w.missing <==> ReachesLackOf(s, st, commit.content, x)
    ensures forall x :: x in w.visited <==> commit.id == Some(x) || ReachesId(s, st, commit.content, x)
  {
    hide Reaches, CommitAt, BodyOf, Settled, MalformedAt, LacksBlock, LackingAt, Expands, ReadInOneWay;
    var c := commit.content;
    assert w.visited - {} == w.visited && w.missing - {} == w.missing;
    forall d | Reaches(s, st, c, d)
      ensures !MalformedAt(s, st, d) && forall x :: LacksBlock(s, st, d, x) ==> x in w.missing
    {
      SeenIsReached(s, st, commit, w, d);
      SettledMeans(s, st, d, w);
    }
    forall x | ReachesId(s, st, c, x)
      ensures x in w.visited
    {
      var ref: ObjectRef :| Followed(s, st, c, ref) && CommitAt(s, st, ref).Ok? && ref.id == x;
      var d :| Reaches(s, st, c, d) && Expands(s, st, d) && Names(d, ref);
      SeenIsReached(s, st, commit, w, d);
      SettledVisits(s, st, d, ref, w);
    }
  }

  lemma LacksFound(s: Suite, st: Store, commit: Commit, w: Sets)
    requires Filed(st) && Accounted(s, st, commit, Sets({}, {}, {}), w)
    ensures forall x <- w.missing :: x !in st && ReachesLackOf(s, st, commit.content, x)
  {
    hide ReachesLackOf, Read;
    assert w.missing - {} == w.missing;
  }

  /** The body of `c` is there, and its deps and acks, if followed, all load, under ids in `ids`. */
  ghost predicate Available(s: Suite, st: Store, c: CommitContent, ids: set<Digest>)
    requires Filed(st)
  {
    && BodyOf(s, st, c).Ok?
    && (BodyOf(s, st, c).value.kind != Branch ==> forall ref :: Names(c, ref) ==> CommitAt(s, st, ref).Ok? && ref.id in ids)
  }

  /** `ids` are those of commits that were looked at, from `commit` on, and found to be available. */
  ghost predicate Vouched(s: Suite, st: Store, commit: Commit, ids: set<Digest>)
    requires Filed(st)
  {
    && (commit.id.Some? ==> commit.id.value in ids)
    && exists seen: set<CommitContent> ::
         && commit.content in seen
         && (forall c <- seen :: Reaches(s, st, commit.content, c) && Available(s, st, c, ids))
         && (forall x <- ids :: commit.id == Some(x) || Read(s, st, commit.content, x, seen))
  }

  /** A finished walk that has noted nothing missing vouches for the ids it visited, however they are read. */
  lemma WalkVouches(s: Suite, st: Store, commit: Commit, w: Sets)
    requires Filed(st)
    requires commit.content in w.seen && (commit.id.Some? ==> commit.id.value in w.visited) && w.missing == {}
    requires Accounted(s, st, commit, Sets({}, {}, {}), w) && Explored(s, st, commit.content, w.seen, w)
    ensures Vouched(s, st, commit, w.visited)
  {
    hide Reaches, ReachesId, Read, Available, Settled;
    assert w.visited - {} == w.visited;
    forall c | c in w.seen
      ensures Available(s, st, c, w.visited)
    {
      SettledIsAvailable(s, st, c, w);
    }
  }

  lemma SettledIsAvailable(s: Suite, st: Store, c: CommitContent, w: Sets)
    requires Filed(st) && Settled(s, st, c, w) && w.missing == {}
    ensures Available(s, st, c, w.visited)
  {
    SettledMeans(s, st, c, w);
    hide Fetch, CommitAt, BodyOf, Expands, SettledBody;
    assert !Lacking(BodyOf(s, st, c)) && !Malformed(BodyOf(s, st, c));
    forall ref | Expands(s, st, c) && Names(c, ref)
      ensures CommitAt(s, st, ref).Ok? && ref.id in w.visited
    {
      assert SettledRef(s, st, ref, w);
      assert !Lacking(CommitAt(s, st, ref)) && !Malformed(CommitAt(s, st, ref));
    }
  }

  lemma SettledVisits(s: Suite, st: Store, d: CommitContent, ref: ObjectRef, w: Sets)
    requires Filed(st) && Settled(s, st, d, w) && Expands(s, st, d) && Names(d, ref) && CommitAt(s, st, ref).Ok?
    ensures ref.id in w.visited
  {
    hide CommitAt, SettledBody, Expands;
    assert SettledRef(s, st, ref, w);
  }

  /** `Vec::from_iter` over a set, in some order. */
  method Listed(ids: set<Digest>) returns (r: seq<Digest>)
    ensures forall x :: x in r <==> x in ids
    ensures |r| == |ids|
  {
    r := [];
    var rest := ids;
    while rest != {}
      invariant rest <= ids && |r| + |rest| == |ids|
      invariant forall x :: x in r <==> x in ids - rest
    {
      var x :| x in rest;
      rest := rest - {x};
      r := r + [x];
    }
  }

  /** What `verify_deps` answers when its walk, started with empty sets, has come to `w`. */
  ghost predicate Answers(r: Result<seq<Digest>, CommitError>, w: Result<Marks, CommitError>) {
    match w
    case Err(e) => r == Err(e)
    case Ok(m) =>
      if m.missing != {} then Lacking(r) && (set x | x in r.error.ids) == m.missing
      else r.Ok? && (set x | x in r.value) == m.visited && |r.value| == |m.visited|
  }

  /** The answer takes account of what loading a body, a dep or an ack gave. */
  ghost predicate Noted<T>(x: Result<T, CommitError>, r: Result<seq<Digest>, CommitError>) {
    !Malformed(x) && (Lacking(x) ==> Lacking(r) && forall id <- x.error.ids :: id in r.error.ids)
  }

  /**
   * The answer takes account of a commit: of its body, and, unless that is known
   * to be a Branch, of every ack and every dep, each of which it returns if it
   * returns ids.
   */
  ghost predicate Reported(s: Suite, st: Store, c: CommitContent, r: Result<seq<Digest>, CommitError>)
    requires Filed(st)
  {
    var body := BodyOf(s, st, c);
    && Noted(body, r)
    && (!(body.Ok? && body.value.kind == Branch) ==>
          forall ref: ObjectRef :: ref in c.acks || ref in c.deps ==>
            Noted(CommitAt(s, st, ref), r) && (r.Ok? ==> ref.id in r.value))
  }

  lemma SettledIsReported(s: Suite, st: Store, c: CommitContent, w: Sets, r: Result<seq<Digest>, CommitError>)
    requires Filed(st) && Settled(s, st, c, w) && Answers(r, Ok(Marks(w.visited, w.missing)))
    ensures Reported(s, st, c, r)
  {
    SettledMeans(s, st, c, w);
    hide Fetch, CommitAt, BodyOf;
    if w.missing != {} {
      assert forall x :: x in r.error.ids <==> x in (set y | y in r.error.ids);
    } else {
      assert forall x :: x in r.value <==> x in (set y | y in r.value);
    }
    assert Noted(BodyOf(s, st, c), r);
    forall ref: ObjectRef | Expands(s, st, c) && (ref in c.acks || ref in c.deps)
      ensures Noted(CommitAt(s, st, ref), r) && (r.Ok? ==> ref.id in r.value)
    {
      assert Names(c, ref) && SettledRef(s, st, ref, w);
    }
  }

  /** Something reached lacks blocks exactly if some block is missing for something reached. */
  lemma LackingReached(s: Suite, st: Store, c: CommitContent)
    requires Filed(st)
    ensures ReachesLacking(s, st, c) <==> exists x :: ReachesLackOf(s, st, c, x)
  {
    hide Reaches, LackingAt, LacksBlock;
    if d :| Reaches(s, st, c, d) && LackingAt(s, st, d) {
      LackingLacks(s, st, d);
      var x :| LacksBlock(s, st, d, x);
      assert ReachesLackOf(s, st, c, x);
    }
    if x :| ReachesLackOf(s, st, c, x) {
      var d :| Reaches(s, st, c, d) && LacksBlock(s, st, d, x);
      LackingLacks(s, st, d);
    }
  }

  ghost function WalkFrom(s: Suite, st: Store, commit: Commit): Result<Marks, CommitError>
    requires Filed(st)
  {
    Visit(s, st, commit, Marks({}, {}), Entered(commit, st.Keys))
  }

  /**
   * `Commit::verify_deps`. A malformed commit or body it fails on is one
   * reached; missing blocks it reports are absent from the store, and missing
   * for a commit reached; ids it returns are those of commits reached, looked at
   * and found available. Unless it fails, it takes account of the body, and
   * every ack and dep, of the commit itself. As an id is visited once, whatever
   * the key, it may overlook others, but not if the ids followed are read in one
   * way only: then it fails on a malformed commit or body whenever one is
   * reached, else reports exactly the blocks missing for what is reached, if
   * any, else returns every id reached.
   */
  method VerifyDeps(s: Suite, st: Store, commit: Commit) returns (r: Result<seq<Digest>, CommitError>)
    requires Filed(st)
    ensures Answers(r, WalkFrom(s, st, commit))
    ensures Malformed(r) ==> ReachesMalformed(s, st, commit.content)
    ensures Lacking(r) ==> ReachesLacking(s, st, commit.content) && Loading.AbsentFrom(st, r.error.ids)
    ensures Lacking(r) ==> forall x <- r.error.ids :: ReachesLackOf(s, st, commit.content, x)
    ensures r.Ok? ==> Vouched(s, st, commit, set x | x in r.value)
    ensures !Malformed(r) ==> Reported(s, st, commit.content, r)
    ensures ReadInOneWay(s, st, commit) ==>
              && (Malformed(r) <==> ReachesMalformed(s, st, commit.content))
              && (Lacking(r) <==> !ReachesMalformed(s, st, commit.content) && ReachesLacking(s, st, commit.content))
              && (Lacking(r) ==> forall x :: x in r.error.ids <==> ReachesLackOf(s, st, commit.content, x))
              && (r.Ok? ==> forall x :: x in r.value <==> commit.id == Some(x) || ReachesId(s, st, commit.content, x))
              && (!Malformed(r) ==> forall d :: Reaches(s, st, commit.content, d) ==> Reported(s, st, d, r))
  {
    hide CommitAt, BodyOf, ReachesMalformed, ReachesLacking, ReachesLackOf, ReachesId, Explored, ReadInOneWay, Vouched, Visit,
         Accounted, Sets.Within, Reaches, Reported;
    ghost var universe := Entered(commit, st.Keys);
    var error, visited, missing;
    ghost var seen;
    error, visited, missing, seen := LoadBranch(s, st, commit, {}, {}, {}, universe);
    if error.Some? {
      return Err(error.value);
    }
    ghost var w := Sets(visited, missing, seen);
    assert seen - {} == seen;
    LacksFound(s, st, commit, w);
    LackingReached(s, st, commit.content);
    if ReadInOneWay(s, st, commit) {
      WalkIsExact(s, st, commit, w);
    }
    if missing != {} {
      var ids := Listed(missing);
      assert |ids| != 0 && (set x | x in ids) == missing;
      r := Err(CommitError.MissingBlocks(ids));
    } else {
      WalkVouches(s, st, commit, w);
      var ids := Listed(visited);
      assert (set x | x in ids) == visited;
      r := Ok(ids);
    }
    AllReported(s, st, commit, w, r);
  }

  /** What the walk has looked at is taken account of; that is all it reaches, if ids are read in one way. */
  lemma AllReported(s: Suite, st: Store, commit: Commit, w: Sets, r: Result<seq<Digest>, CommitError>)
    requires Filed(st) && commit.content in w.seen && Answers(r, Ok(Marks(w.visited, w.missing)))
    requires Accounted(s, st, commit, Sets({}, {}, {}), w) && Explored(s, st, commit.content, w.seen, w)
    ensures Reported(s, st, commit.content, r)
    ensures ReadInOneWay(s, st, commit) ==> forall d :: Reaches(s, st, commit.content, d) ==> Reported(s, st, d, r)
  {
    hide Reaches, Accounted, ReadInOneWay, Answers, Reported, Settled;
    forall d | d in w.seen
      ensures Reported(s, st, d, r)
    {
      SettledIsReported(s, st, d, w, r);
    }
    if ReadInOneWay(s, st, commit) {
      forall d | Reaches(s, st, commit.content, d)
        ensures Reported(s, st, d, r)
      {
        SeenIsReached(s, st, commit, w, d);
      }
    }
  }

  /** A Branch commit ends the walk: nothing below it is looked at. */
  lemma BranchEndsWalk(s: Suite, st: Store, commit: Commit, d: CommitContent)
    requires Filed(st) && BodyOf(s, st, commit.content).Ok? && BodyOf(s, st, commit.content).value.kind == Branch
    ensures WalkFrom(s, st, commit) == Ok(Marks(if commit.id.Some? then {commit.id.value} else {}, {}))
    ensures Reaches(s, st, commit.content, d) <==> d == commit.content
  {
    hide CommitAt, BodyOf;
    assert Entered(commit, {}) == if commit.id.Some? then {commit.id.value} else {};
    ReachesSelf(s, st, commit.content);
    if Reaches(s, st, commit.content, d) {
      var q :| Chain(s, st, q) && q[0] == commit.content && q[|q| - 1] == d;
      assert |q| > 1 ==> Child(s, st, q[0], q[1]);
    }
  }

  /** Acks are followed before deps: a malformed first ack is what the walk fails on. */
  lemma AcksComeFirst(s: Suite, st: Store, commit: Commit)
    requires Filed(st) && commit.id == None && BodyOf(s, st, commit.content).Ok? && BodyOf(s, st, commit.content).value.kind != Branch
    requires commit.content.acks != [] && Malformed(CommitAt(s, st, commit.content.acks[0]))
    ensures WalkFrom(s, st, commit) == Err(CommitAt(s, st, commit.content.acks[0]).error)
  {
    hide CommitAt, BodyOf, VisitRefs;
    var refs := DepsAcks(commit.content);
    assert refs[0..] == refs && refs[0] == commit.content.acks[0];
    VisitStep(s, st, refs, 0, Marks({}, {}), st.Keys);
    assert Entered(commit, st.Keys) == st.Keys && Entered(commit, {}) == {};
  }
}
