// The BARE encoding of block contents, and the exact serialized size of a block.

module Bare {
  import opened Types

  /** An unsigned variable-length integer, seven bits a byte, low bits first. */
  function VarUint(n: nat): (r: seq<byte>)
    ensures |r| == VarUintSize(n)
  {
    if n < 128 then [n as byte] else [(n % 128 + 128) as byte] + VarUint(n / 128)
  }

  function VarUintSize(n: nat): nat {
    if n < 128 then 1 else 1 + VarUintSize(n / 128)
  }

  function ReadVarUint(s: seq<byte>): Option<(nat, seq<byte>)> {
    if s == [] then None
    else
      var b := s[0] as nat;
      if b < 128 then Some((b, s[1..]))
      else
        match ReadVarUint(s[1..])
        case None => None
        case Some((high, rest)) => Some((b - 128 + 128 * high, rest))
  }

  lemma {:induction false} VarUintRoundTrip(n: nat, tail: seq<byte>)
    ensures ReadVarUint(VarUint(n) + tail) == Some((n, tail))
  {
    var s := VarUint(n) + tail;
    if n < 128 {
      assert s[1..] == tail;
    } else {
      assert s[1..] == VarUint(n / 128) + tail;
      VarUintRoundTrip(n / 128, tail);
    }
  }

  /** A symmetric key: variant 0, then the 32 bytes. */
  function KeyBytes(k: Key): seq<byte> {
    VarUint(0) + k
  }

  function KeysBytes(ks: seq<Key>): (r: seq<byte>)
    ensures |r| == 33 * |ks|
  {
    if ks == [] then [] else KeyBytes(ks[0]) + KeysBytes(ks[1..])
  }

  function ReadKeys(n: nat, s: seq<byte>): Option<(seq<Key>, seq<byte>)> {
    if n == 0 then Some(([], s))
    else
      match ReadVarUint(s)
      case None => None
      case Some((variant, rest)) =>
        if variant != 0 || |rest| < 32 then None
        else
          match ReadKeys(n - 1, rest[32..])
          case None => None
          case Some((keys, tail)) => Some(([rest[..32]] + keys, tail))
  }

  lemma {:induction false} KeysRoundTrip(ks: seq<Key>, tail: seq<byte>)
    ensures ReadKeys(|ks|, KeysBytes(ks) + tail) == Some((ks, tail))
  {
    if ks != [] {
      var first: seq<byte> := ks[0];
      var more: seq<byte> := KeysBytes(ks[1..]) + tail;
      assert KeysBytes(ks) + tail == VarUint(0) + (first + more);
      VarUintRoundTrip(0, first + more);
      assert (first + more)[..32] == first && (first + more)[32..] == more;
      KeysRoundTrip(ks[1..], tail);
      assert [ks[0]] + ks[1..] == ks;
    } else {
      assert KeysBytes(ks) + tail == tail;
    }
  }

  /** `serde_bare::to_vec` of a `BlockContentV0`. */
  function Serialize(c: BlockContent): seq<byte> {
    match c
    case InternalNode(keys) => VarUint(0) + (VarUint(|keys|) + KeysBytes(keys))
    case DataChunk(chunk) => VarUint(1) + (VarUint(|chunk|) + chunk)
  }

  /** `serde_bare::from_slice` of a `BlockContentV0`. */
  function Deserialize(s: seq<byte>): Option<BlockContent> {
    match ReadVarUint(s)
    case None => None
    case Some((variant, rest)) =>
      match ReadVarUint(rest)
      case None => None
      case Some((n, body)) =>
        if variant == 0 then
          match ReadKeys(n, body)
          case None => None
          case Some((keys, _)) => Some(InternalNode(keys))
        else if variant == 1 && n <= |body| then Some(DataChunk(body[..n]))
        else None
  }

  lemma ContentRoundTrip(c: BlockContent)
    ensures Deserialize(Serialize(c)) == Some(c)
  {
    match c
    case InternalNode(keys) =>
      VarUintRoundTrip(0, VarUint(|keys|) + KeysBytes(keys));
      VarUintRoundTrip(|keys|, KeysBytes(keys));
      KeysRoundTrip(keys, []);
      assert KeysBytes(keys) + [] == KeysBytes(keys);
    case DataChunk(chunk) =>
      VarUintRoundTrip(1, VarUint(|chunk|) + chunk);
      VarUintRoundTrip(|chunk|, chunk);
      assert chunk[..|chunk|] == chunk;
  }

  /** Bytes after a data chunk are not looked at. */
  lemma ChunkThenTail(chunk: seq<byte>, tail: seq<byte>)
    ensures Deserialize(Serialize(DataChunk(chunk)) + tail) == Some(DataChunk(chunk))
  {
    var body: seq<byte> := chunk + tail;
    assert Serialize(DataChunk(chunk)) + tail == VarUint(1) + (VarUint(|chunk|) + body);
    VarUintRoundTrip(1, VarUint(|chunk|) + body);
    VarUintRoundTrip(|chunk|, body);
    assert body[..|chunk|] == chunk;
  }

  // ----- Blocks -----

  // The 32 bytes of a digest are a parameter. A digest, a key and each half of an
  // object reference are a variant number and 32 bytes: 33 in all.

  type Hash = Digest -> Key

  function Hashes(h: Hash, ids: seq<Digest>): (r: seq<Key>)
    ensures |r| == |ids|
  {
    seq(|ids|, i requires 0 <= i < |ids| => h(ids[i]))
  }

  function IdsBytes(h: Hash, ids: seq<Digest>): seq<byte> {
    VarUint(|ids|) + KeysBytes(Hashes(h, ids))
  }

  function DepsBytes(h: Hash, d: ObjectDeps): seq<byte> {
    match d
    case ObjectIdList(ids) => VarUint(0) + IdsBytes(h, ids)
    case DepListRef(ref) => VarUint(1) + KeysBytes([h(ref.id), ref.key])
  }

  function U32(n: Timestamp): (r: seq<byte>)
    ensures |r| == 4
  {
    [(n % 256) as byte, (n / 0x100 % 256) as byte, (n / 0x1_0000 % 256) as byte, (n / 0x100_0000) as byte]
  }

  function ExpiryBytes(e: Option<Timestamp>): seq<byte> {
    match e
    case None => [0]
    case Some(t) => [1] + U32(t)
  }

  function DataBytes(bytes: seq<byte>): seq<byte> {
    VarUint(|bytes|) + bytes
  }

  /** `serde_bare::to_vec` of a `Block`. The id and key fields are skipped. */
  function SerializeBlock(h: Hash, b: Block): seq<byte> {
    VarUint(0) + (IdsBytes(h, b.children) + (DepsBytes(h, b.deps) + (ExpiryBytes(b.expiry) + DataBytes(b.content))))
  }

  function DepsSize(d: ObjectDeps): (n: nat)
    ensures forall h: Hash :: |DepsBytes(h, d)| == n
  {
    match d
    case ObjectIdList(ids) => 1 + VarUintSize(|ids|) + 33 * |ids|
    case DepListRef(_) => 1 + 33 + 33
  }

  /** The length of a serialized block. */
  function BlockSize(b: Block): (n: nat)
    ensures forall h: Hash :: |SerializeBlock(h, b)| == n
  {
    1
    + VarUintSize(|b.children|) + 33 * |b.children|
    + DepsSize(b.deps)
    + (if b.expiry.Some? then 5 else 1)
    + VarUintSize(|b.content|) + |b.content|
  }

  // ----- Reading blocks -----

  datatype RawDeps = RawIds(ids: seq<Key>) | RawRef(ids: seq<Key>)

  /** A block as read: digests are their bytes. */
  datatype RawBlock = RawBlock(children: seq<Key>, deps: RawDeps, expiry: Option<Timestamp>, content: seq<byte>)

  function Raw(h: Hash, b: Block): RawBlock {
    RawBlock(Hashes(h, b.children), RawOf(h, b.deps), b.expiry, b.content)
  }

  function RawOf(h: Hash, d: ObjectDeps): RawDeps {
    match d
    case ObjectIdList(ids) => RawIds(Hashes(h, ids))
    case DepListRef(ref) => RawRef([h(ref.id), ref.key])
  }

  function ReadIds(s: seq<byte>): Option<(seq<Key>, seq<byte>)> {
    match ReadVarUint(s)
    case None => None
    case Some((n, rest)) => ReadKeys(n, rest)
  }

  function ReadDeps(s: seq<byte>): Option<(RawDeps, seq<byte>)> {
    match ReadVarUint(s)
    case None => None
    case Some((variant, rest)) =>
      if variant == 0 then
        match ReadIds(rest)
        case None => None
        case Some((ids, tail)) => Some((RawIds(ids), tail))
      else if variant == 1 then
        match ReadKeys(2, rest)
        case None => None
        case Some((ids, tail)) => Some((RawRef(ids), tail))
      else None
  }

  function ReadExpiry(s: seq<byte>): Option<(Option<Timestamp>, seq<byte>)> {
    if s == [] then None
    else if s[0] == 0 then Some((None, s[1..]))
    else if s[0] == 1 && |s| >= 5 then
      Some((Some(s[1] as nat + 0x100 * (s[2] as nat) + 0x1_0000 * (s[3] as nat) + 0x100_0000 * (s[4] as nat)), s[5..]))
    else None
  }

  /** `serde_bare::from_slice` of a `Block`. */
  function ReadBlock(s: seq<byte>): Option<RawBlock> {
    match ReadVarUint(s)
    case None => None
    case Some((variant, s1)) =>
      if variant != 0 then None
      else
        match ReadIds(s1)
        case None => None
        case Some((children, s2)) =>
          match ReadDeps(s2)
          case None => None
          case Some((deps, s3)) =>
            match ReadExpiry(s3)
            case None => None
            case Some((expiry, s4)) =>
              match ReadVarUint(s4)
              case None => None
              case Some((n, body)) => if n <= |body| then Some(RawBlock(children, deps, expiry, body[..n])) else None
  }

  lemma IdsReadBack(h: Hash, ids: seq<Digest>, tail: seq<byte>)
    ensures ReadIds(IdsBytes(h, ids) + tail) == Some((Hashes(h, ids), tail))
  {
    var keys := KeysBytes(Hashes(h, ids));
    assert IdsBytes(h, ids) + tail == VarUint(|ids|) + (keys + tail);
    VarUintRoundTrip(|ids|, keys + tail);
    KeysRoundTrip(Hashes(h, ids), tail);
  }

  lemma DepsReadBack(h: Hash, d: ObjectDeps, tail: seq<byte>)
    ensures ReadDeps(DepsBytes(h, d) + tail) == Some((RawOf(h, d), tail))
  {
    match d
    case ObjectIdList(ids) =>
      var rest := IdsBytes(h, ids) + tail;
      assert DepsBytes(h, d) + tail == VarUint(0) + rest;
      VarUintRoundTrip(0, rest);
      IdsReadBack(h, ids, tail);
    case DepListRef(ref) =>
      var rest := KeysBytes([h(ref.id), ref.key]) + tail;
      assert DepsBytes(h, d) + tail == VarUint(1) + rest;
      VarUintRoundTrip(1, rest);
      KeysRoundTrip([h(ref.id), ref.key], tail);
  }

  lemma U32ReadsBack(n: Timestamp)
    ensures var s := U32(n);
            s[0] as nat + 0x100 * (s[1] as nat) + 0x1_0000 * (s[2] as nat) + 0x100_0000 * (s[3] as nat) == n
  {
    assert n / 0x100 / 0x100 == n / 0x1_0000 && n / 0x1_0000 / 0x100 == n / 0x100_0000;
  }

  lemma ExpiryReadsBack(e: Option<Timestamp>, tail: seq<byte>)
    ensures ReadExpiry(ExpiryBytes(e) + tail) == Some((e, tail))
  {
    var s := ExpiryBytes(e) + tail;
    match e
    case None => assert s[1..] == tail;
    case Some(t) =>
      U32ReadsBack(t);
      assert s[5..] == tail;
      assert s[1] == U32(t)[0] && s[2] == U32(t)[1] && s[3] == U32(t)[2] && s[4] == U32(t)[3];
  }

  /** A serialized block reads back: children, deps, expiry and content, in the bytes of their digests. */
  lemma BlockRoundTrip(h: Hash, b: Block)
    ensures ReadBlock(SerializeBlock(h, b)) == Some(Raw(h, b))
  {
    hide ReadIds, ReadDeps, ReadExpiry, IdsBytes, DepsBytes, ExpiryBytes;
    var s4 := DataBytes(b.content);
    var s3 := ExpiryBytes(b.expiry) + s4;
    var s2 := DepsBytes(h, b.deps) + s3;
    var s1 := IdsBytes(h, b.children) + s2;
    VarUintRoundTrip(0, s1);
    IdsReadBack(h, b.children, s2);
    DepsReadBack(h, b.deps, s3);
    ExpiryReadsBack(b.expiry, s4);
    VarUintRoundTrip(|b.content|, b.content);
    assert b.content[..|b.content|] == b.content;
  }

  /** Hashes that do not collide tell any two blocks apart that differ in more than cached id and key. */
  lemma SerializationTellsApart(h: Hash, a: Block, b: Block)
    requires forall x, y :: h(x) == h(y) ==> x == y
    requires SerializeBlock(h, a) == SerializeBlock(h, b)
    ensures a.Stripped() == b.Stripped()
  {
    hide SerializeBlock, ReadBlock;
    BlockRoundTrip(h, a);
    BlockRoundTrip(h, b);
    SameHashes(h, a.children, b.children);
    match (a.deps, b.deps)
    case (ObjectIdList(x), ObjectIdList(y)) => SameHashes(h, x, y);
    case (DepListRef(x), DepListRef(y)) =>
      assert [h(x.id), x.key][0] == [h(y.id), y.key][0] && [h(x.id), x.key][1] == [h(y.id), y.key][1];
    case _ =>
  }

  lemma SameHashes(h: Hash, a: seq<Digest>, b: seq<Digest>)
    requires forall x, y :: h(x) == h(y) ==> x == y
    ensures Hashes(h, a) == Hashes(h, b) ==> a == b
  {
    if Hashes(h, a) == Hashes(h, b) {
      assert |a| == |b|;
      forall i | 0 <= i < |a|
        ensures a[i] == b[i]
      {
        assert Hashes(h, a)[i] == Hashes(h, b)[i];
      }
    }
  }

  /** Up to 2^21 a length takes at most three bytes. */
  lemma VarUintSmall(n: nat)
    requires n < 0x20_0000
    ensures VarUintSize(n) <= 3
  {
    assert n / 128 < 0x4000 && n / 128 / 128 < 128;
    assert VarUintSize(n / 128 / 128) == 1;
    assert VarUintSize(n / 128) <= 2;
  }

  lemma ContentSize(c: BlockContent)
    ensures |Serialize(c)| == match c
                              case InternalNode(keys) => 1 + VarUintSize(|keys|) + 33 * |keys|
                              case DataChunk(chunk) => 1 + VarUintSize(|chunk|) + |chunk|
  {
  }
}
