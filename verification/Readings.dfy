// A stored block that opens as two commits, under two keys, and what `verify_deps` makes of it.

module Readings {
  import opened Types
  import opened Objects
  import opened Commits
  import Bare

  // ----- What is overlooked -----

  /**
   * `commit` follows two references to one id. Under the first key the id
   * loads as a commit that has all it needs; under the second, as one whose
   * body is missing.
   */
  ghost predicate TwoReadings(s: Suite, st: Store, commit: Commit, first: ObjectRef, second: ObjectRef)
    requires Filed(st)
  {
    && commit.id == None && commit.content.acks + commit.content.deps == [first, second] && first.id == second.id
    && IsComplete(BodyOf(s, st, commit.content))
    && CommitAt(s, st, first).Ok? && CommitAt(s, st, second).Ok?
    && IsComplete(BodyOf(s, st, CommitAt(s, st, first).value)) && CommitAt(s, st, first).value.acks == CommitAt(s, st, first).value.deps == []
    && Lacking(BodyOf(s, st, CommitAt(s, st, second).value))
  }

  /** A body that is there, not that of a Branch commit. */
  predicate IsComplete(r: Result<CommitBody, CommitError>) {
    r.Ok? && r.value.kind != Branch
  }

  /**
   * The walk visits the id once, under the first key: it reports nothing
   * missing, though a commit it should follow lacks its body. Ids are then not
   * read in one way.
   */
  lemma SecondReadingOverlooked(s: Suite, st: Store, commit: Commit, first: ObjectRef, second: ObjectRef)
    requires Filed(st) && TwoReadings(s, st, commit, first, second)
    ensures WalkFrom(s, st, commit) == Ok(Marks({first.id}, {}))
    ensures ReachesLacking(s, st, commit.content) && !ReadInOneWay(s, st, commit)
  {
    hide CommitAt, BodyOf;
    var c, refs := commit.content, DepsAcks(commit.content);
    var one, two := CommitAt(s, st, first).value, CommitAt(s, st, second).value;
    WalkOfTwo(s, st, commit, first, second);
    ReachesSelf(s, st, c);
    ReachesSelf(s, st, two);
    assert refs[0] == first && refs[1] == second;
    assert Child(s, st, c, two);
    ReachesThrough(s, st, c, two, two);
    assert LackingAt(s, st, two);
    assert Followed(s, st, c, first) && Followed(s, st, c, second);
    assert one != two;
  }

  lemma WalkOfTwo(s: Suite, st: Store, commit: Commit, first: ObjectRef, second: ObjectRef)
    requires Filed(st) && TwoReadings(s, st, commit, first, second)
    ensures WalkFrom(s, st, commit) == Ok(Marks({first.id}, {}))
  {
    hide CommitAt, BodyOf, Visit, VisitRefs;
    var refs, start, visited := DepsAcks(commit.content), Marks({}, {}), Marks({first.id}, {});
    var universe := Entered(commit, st.Keys);
    assert refs[0..] == refs && refs[0] == first && refs[1] == second;
    assert DepsAcks(CommitAt(s, st, first).value) == [];
    CommitIsStored(s, st, first);
    VisitStep(s, st, refs, 0, start, universe);
    VisitStep(s, st, refs, 1, visited, universe);
    VisitNothing(s, st, refs[2..], visited, universe);
    VisitNothing(s, st, [], visited, universe);
    var one := Commit(Some(first.id), Some(first.key), CommitAt(s, st, first).value);
    var two := Commit(Some(second.id), Some(second.key), CommitAt(s, st, second).value);
    VisitEnters(s, st, one, start, universe);
    VisitEnters(s, st, two, visited, universe);
    VisitEnters(s, st, commit, start, universe);
    assert Entered(commit, {}) == {} && Entered(one, {}) == {first.id};
  }

  /** One visit of a commit whose body is there, or that has been visited. */
  lemma VisitEnters(s: Suite, st: Store, commit: Commit, m: Marks, universe: set<Digest>)
    requires Filed(st) && st.Keys <= universe && (commit.id.Some? ==> commit.id.value in universe)
    ensures var r := Visit(s, st, commit, m, universe);
            if commit.id.Some? && commit.id.value in m.visited then r == Ok(m)
            else IsComplete(BodyOf(s, st, commit.content)) ==>
                   r == VisitRefs(s, st, DepsAcks(commit.content), Marks(Entered(commit, m.visited), m.missing), universe)
  {
    hide CommitAt, BodyOf, VisitRefs;
  }

  // ----- An input -----

  /** A one-block object without deps, read with a key under which it holds `chunk`. */
  lemma FetchOneBlock(s: Suite, st: Store, b: Block, key: Key, chunk: seq<byte>)
    requires Filed(st) && b.Id() in st && st[b.Id()] == b && b.Coherent() && b.children == [] && b.deps == NO_DEPS
    requires Bare.Deserialize(s.Crypt(key, b.content)) == Some(DataChunk(chunk))
    ensures Fetch(s, st, ObjectRef(b.Id(), key))
            == match s.decode(chunk) case None => Err(ObjectParseError) case Some(c) => Ok(c)
  {
    var id := b.Id();
    OneBlockLoads(s, st, b, Some(key));
    hide Load;
    var root := b.(key := Some(key));
    var refs: Refs := [(id, key)];
    assert refs[1..] == [];
    OpenNothing(s, [root], 1);
    assert OpenBlock(s, root, id, key) == Ok(Level([], [root], chunk));
    assert Join(Level([], [root], chunk), Level([], [], [])) == Level([], [root], chunk);
    assert OpenLevel(s, [root], refs, 0) == Ok(Level([], [root], chunk));
    assert Collect(s, [root], refs, 0) == Ok(Yield([root], chunk));
  }

  lemma AbsentLacks(s: Suite, st: Store, ref: ObjectRef)
    requires Filed(st) && ref.id !in st
    ensures Fetch(s, st, ref) == Err(CommitError.MissingBlocks([ref.id]))
  {
    MissingRoot(st, ref.id);
  }

  function KeyOf(b: byte): (k: Key)
    ensures k[0] == b
  {
    seq(32, _ => b)
  }

  function Plain(s: Suite, c: ObjectContent): seq<byte> {
    Bare.Serialize(DataChunk(s.encode(c)))
  }

  function Padded(bytes: seq<byte>, length: nat): (r: seq<byte>)
    ensures |bytes| <= length ==> |r| == length
  {
    bytes + seq(if |bytes| < length then length - |bytes| else 0, _ => 0)
  }

  const BODY := CommitBody(Ack, [])

  function BodyBlock(s: Suite): Block {
    Block(None, None, [], NO_DEPS, None, Plain(s, BodyObject(BODY)))
  }

  function Complete(s: Suite): CommitContent {
    CommitContent([], [], ObjectRef(BodyBlock(s).Id(), KeyOf(0)), [])
  }

  function Incomplete(): CommitContent {
    CommitContent([], [], ObjectRef(Foreign(0), KeyOf(0)), [])
  }

  function CommonLength(s: Suite): nat {
    var m, n := |Plain(s, CommitObject(Complete(s)))|, |Plain(s, CommitObject(Incomplete()))|;
    if m < n then n else m
  }

  /** What the commit block holds under the first key. */
  function FirstPlain(s: Suite): (r: seq<byte>)
    ensures |r| == CommonLength(s)
  {
    Padded(Plain(s, CommitObject(Complete(s))), CommonLength(s))
  }

  /** What it holds under the second. */
  function SecondPlain(s: Suite): (r: seq<byte>)
    ensures |r| == CommonLength(s)
  {
    Padded(Plain(s, CommitObject(Incomplete())), CommonLength(s))
  }

  function CommitBlock(s: Suite): Block {
    Block(None, None, [], NO_DEPS, None, FirstPlain(s))
  }

  function Start(s: Suite): CommitContent {
    var id := CommitBlock(s).Id();
    CommitContent([ObjectRef(id, KeyOf(0)), ObjectRef(id, KeyOf(1))], [], ObjectRef(BodyBlock(s).Id(), KeyOf(0)), [])
  }

  /** A keystream that is zero but for the second key, where it is the difference of the two. */
  function Stream(s: Suite, key: Key, i: nat): byte {
    if key == KeyOf(1) && i < CommonLength(s) then Xor(SecondPlain(s)[i], FirstPlain(s)[i]) else 0
  }

  /** The same hashes and serialization with that keystream. */
  function TwoKeySuite(s: Suite): Suite {
    s.(keystream := (key: Key, i: nat) => Stream(s, key, i))
  }

  function TwoBlockStore(s: Suite): Store {
    map[CommitBlock(s).Id() := CommitBlock(s), BodyBlock(s).Id() := BodyBlock(s)]
  }

  lemma CryptUnderFirst(s: Suite, text: seq<byte>)
    ensures TwoKeySuite(s).Crypt(KeyOf(0), text) == text
  {
    hide Stream;
    forall i | 0 <= i < |text|
      ensures TwoKeySuite(s).Crypt(KeyOf(0), text)[i] == text[i]
    {
      assert Stream(s, KeyOf(0), i) == 0 by { ZeroStream(s, i); }
      XorZero(text[i]);
    }
  }

  lemma ZeroStream(s: Suite, i: nat)
    ensures Stream(s, KeyOf(0), i) == 0
  {
    assert KeyOf(0)[0] != KeyOf(1)[0];
  }

  lemma CryptUnderSecond(s: Suite)
    ensures TwoKeySuite(s).Crypt(KeyOf(1), FirstPlain(s)) == SecondPlain(s)
  {
    hide FirstPlain, SecondPlain;
    forall i | 0 <= i < CommonLength(s)
      ensures TwoKeySuite(s).Crypt(KeyOf(1), FirstPlain(s))[i] == SecondPlain(s)[i]
    {
      XorDifference(FirstPlain(s)[i], SecondPlain(s)[i]);
    }
  }

  lemma PaddedOpens(s: Suite, c: ObjectContent, length: nat)
    ensures Bare.Deserialize(Padded(Plain(s, c), length)) == Some(DataChunk(s.encode(c)))
  {
    hide Bare.Deserialize;
    var plain := Plain(s, c);
    Bare.ChunkThenTail(s.encode(c), Padded(plain, length)[|plain|..]);
    assert Padded(plain, length) == plain + Padded(plain, length)[|plain|..];
  }

  lemma TwoBlocksFiled(s: Suite)
    ensures var st := TwoBlockStore(s);
            && Filed(st) && Foreign(0) !in st
            && forall b <- [CommitBlock(s), BodyBlock(s)] ::
                 b.Id() in st && st[b.Id()] == b && b.Coherent() && b.children == [] && b.deps == NO_DEPS
  {
    hide FirstPlain, Plain;
  }

  /** The commit block opens as two commits; the body block opens as a body. */
  lemma TwoBlocksOpen(s: Suite)
    requires s.Sound()
    ensures Filed(TwoBlockStore(s))
    ensures var two, st, id := TwoKeySuite(s), TwoBlockStore(s), CommitBlock(s).Id();
            && Fetch(two, st, ObjectRef(id, KeyOf(0))) == Ok(CommitObject(Complete(s)))
            && Fetch(two, st, ObjectRef(id, KeyOf(1))) == Ok(CommitObject(Incomplete()))
            && Fetch(two, st, ObjectRef(BodyBlock(s).Id(), KeyOf(0))) == Ok(BodyObject(BODY))
            && Fetch(two, st, Incomplete().body) == Err(CommitError.MissingBlocks([Foreign(0)]))
  {
    var two, st := TwoKeySuite(s), TwoBlockStore(s);
    TwoBlocksFiled(s);
    CryptUnderFirst(s, FirstPlain(s));
    CryptUnderFirst(s, BodyBlock(s).content);
    CryptUnderSecond(s);
    PaddedOpens(s, CommitObject(Complete(s)), CommonLength(s));
    PaddedOpens(s, CommitObject(Incomplete()), CommonLength(s));
    Bare.ContentRoundTrip(DataChunk(s.encode(BodyObject(BODY))));
    AbsentLacks(two, st, Incomplete().body);
    hide Fetch, Filed, Padded, Plain, TwoBlockStore, Bare.Deserialize, Suite.Crypt, Complete, Block.Id, CommonLength;
    FetchOneBlock(two, st, CommitBlock(s), KeyOf(0), s.encode(CommitObject(Complete(s))));
    FetchOneBlock(two, st, CommitBlock(s), KeyOf(1), s.encode(CommitObject(Incomplete())));
    FetchOneBlock(two, st, BodyBlock(s), KeyOf(0), s.encode(BodyObject(BODY)));
  }

  lemma TwoBlocksRead(s: Suite)
    requires s.Sound()
    ensures Filed(TwoBlockStore(s))
    ensures var two, st, id := TwoKeySuite(s), TwoBlockStore(s), CommitBlock(s).Id();
            && CommitAt(two, st, ObjectRef(id, KeyOf(0))) == Ok(Complete(s))
            && CommitAt(two, st, ObjectRef(id, KeyOf(1))) == Ok(Incomplete())
            && BodyOf(two, st, Start(s)).Ok? && BodyOf(two, st, Start(s)).value.kind == Ack
            && BodyOf(two, st, Complete(s)) == BodyOf(two, st, Start(s))
            && BodyOf(two, st, Incomplete()) == Err(CommitError.MissingBlocks([Foreign(0)]))
  {
    hide Fetch, Filed, TwoKeySuite, TwoBlockStore, CommitBlock, BodyBlock, KeyOf, Suite.Sound;
    TwoBlocksOpen(s);
  }

  /**
   * Such an input exists for every serialization and every key derivation, with
   * a keystream that maps one commit to another: `verify_deps` answers Ok with a
   * body missing.
   */
  lemma SecondReadingExists(s: Suite) returns (two: Suite, st: Store, commit: Commit, first: ObjectRef, second: ObjectRef)
    requires s.Sound()
    ensures two.Sound() && two == s.(keystream := two.keystream)
    ensures Filed(st) && TwoReadings(two, st, commit, first, second)
  {
    two := TwoKeySuite(s);
    assert two.Sound() && two == s.(keystream := two.keystream);
    hide CommitAt, BodyOf, Filed, TwoKeySuite, TwoBlockStore, CommitBlock, BodyBlock, KeyOf, Block.Id, Suite.Sound;
    st, commit := TwoBlockStore(s), Commit(None, None, Start(s));
    var id := CommitBlock(s).Id();
    first, second := ObjectRef(id, KeyOf(0)), ObjectRef(id, KeyOf(1));
    TwoBlocksRead(s);
    assert DepsAcks(Start(s)) == [first, second] && DepsAcks(Complete(s)) == [];
  }
}
