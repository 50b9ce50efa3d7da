// The values every other module works on: digests, keys, blocks, object contents.

module Types {

  newtype byte = b: int | 0 <= b < 256

  /** A 32-byte symmetric key (`SymKey::ChaCha20Key`) or public key. */
  type Key = k: seq<byte> | |k| == 32 witness seq(32, _ => 0 as byte)

  /** Minutes since the LoFiRe epoch, an unsigned 32-bit number. */
  type Timestamp = t: nat | t < 0x1_0000_0000

  datatype Option<+T> = None | Some(value: T)

  datatype Result<+T, +E> = Ok(value: T) | Err(error: E)

  /**
   * A digest. The hash is modelled symbolically: the id of a block is the term
   * of everything its serialization contains, so ids are collision free and a
   * block's id is bigger than the ids it mentions. `Foreign` digests are the
   * 32-byte strings that are the hash of no block.
   */
  datatype Digest =
    | Merkle(children: seq<Digest>, deps: ObjectDeps, expiry: Option<Timestamp>, content: seq<byte>)
    | Foreign(tag: nat)

  datatype ObjectRef = ObjectRef(id: Digest, key: Key)

  datatype ObjectDeps = ObjectIdList(ids: seq<Digest>) | DepListRef(ref: ObjectRef)

  const NO_DEPS := ObjectIdList([])

  /** A block together with its two unserialized fields, the cached id and the key. */
  datatype Block = Block(
    cachedId: Option<Digest>,
    key: Option<Key>,
    children: seq<Digest>,
    deps: ObjectDeps,
    expiry: Option<Timestamp>,
    content: seq<byte>)
  {
    /** `get_id`: the hash over the serialized fields. */
    function Hash(): Digest {
      Merkle(children, deps, expiry, content)
    }

    /** `id`: the cached id if there is one. */
    function Id(): Digest {
      match cachedId
      case Some(id) => id
      case None => Hash()
    }

    /** The cached id, if any, is the hash of the block as it is now. */
    predicate Coherent() {
      Id() == Hash()
    }

    /** `set_expiry`: the id changes with the expiry, so the cached one goes. */
    function WithExpiry(e: Option<Timestamp>): Block {
      this.(cachedId := None, expiry := e)
    }

    /** What serializing and reading back leaves of a block. */
    function Stripped(): Block {
      this.(cachedId := None, key := None)
    }
  }

  /** `Block::new`. */
  function NewBlock(children: seq<Digest>, deps: ObjectDeps, expiry: Option<Timestamp>,
                    content: seq<byte>, key: Option<Key>): Block {
    Block(Some(Merkle(children, deps, expiry, content)), key, children, deps, expiry, content)
  }

  /** What a block holds once decrypted: one key per child, or a piece of content. */
  datatype BlockContent = InternalNode(keys: seq<Key>) | DataChunk(chunk: seq<byte>)

  datatype CommitType =
    | Repository | AddBranch | RemoveBranch | Branch | AddMembers
    | EndOfBranch | Transaction | Snapshot | Ack

  /** A commit body; the payload of its variant is left opaque. */
  datatype CommitBody = CommitBody(kind: CommitType, payload: seq<byte>)

  /** A commit as it is serialized; `rest` stands for the fields no dependency walk reads. */
  datatype CommitContent = CommitContent(
    deps: seq<ObjectRef>, acks: seq<ObjectRef>, body: ObjectRef, rest: seq<byte>)

  datatype ObjectContent =
    | CommitObject(commit: CommitContent)
    | BodyObject(body: CommitBody)
    | FileObject(file: seq<byte>)
    | DepListObject(ids: seq<Digest>)

  /**
   * The library code the repository calls: the BLAKE3 key derivation and keyed
   * hash, the ChaCha20 keystream at nonce 0, and the serialization of object
   * contents. Nothing is assumed of the first three.
   */
  datatype Suite = Suite(
    convergenceKey: (Key, Key) -> Key,
    keyedHash: (Key, seq<byte>) -> Key,
    keystream: (Key, nat) -> byte,
    encode: ObjectContent -> seq<byte>,
    decode: seq<byte> -> Option<ObjectContent>)
  {
    /** Object contents survive serialization, which is never empty (it starts with a variant number). */
    ghost predicate Sound() {
      forall c :: encode(c) != [] && decode(encode(c)) == Some(c)
    }

    /** `apply_keystream`, both ways. */
    function Crypt(key: Key, text: seq<byte>): (r: seq<byte>)
      ensures |r| == |text|
    {
      seq(|text|, i requires 0 <= i < |text| => Xor(text[i], keystream(key, i)))
    }

    /** Decryption undoes encryption under the same key. */
    lemma CryptInvolutive(key: Key, text: seq<byte>)
      ensures Crypt(key, Crypt(key, text)) == text
    {
      var once := Crypt(key, text);
      forall i | 0 <= i < |text|
        ensures Crypt(key, once)[i] == text[i]
      {
        XorTwice(text[i], keystream(key, i));
      }
    }
  }

  /** Exclusive or of the lowest `bits` bits. */
  function XorBits(x: nat, y: nat, bits: nat): (r: nat) {
    if bits == 0 then 0
    else (if x % 2 == y % 2 then 0 else 1) + 2 * XorBits(x / 2, y / 2, bits - 1)
  }

  lemma {:induction false} XorBitsTwice(x: nat, y: nat, bits: nat)
    requires x < Pow2(bits)
    ensures XorBits(x, y, bits) < Pow2(bits)
    ensures XorBits(XorBits(x, y, bits), y, bits) == x
  {
    if bits > 0 {
      XorBitsTwice(x / 2, y / 2, bits - 1);
      var low, high := if x % 2 == y % 2 then 0 else 1, XorBits(x / 2, y / 2, bits - 1);
      assert XorBits(x, y, bits) % 2 == low && XorBits(x, y, bits) / 2 == high;
    }
  }

  function Pow2(n: nat): nat {
    if n == 0 then 1 else 2 * Pow2(n - 1)
  }

  lemma Pow2Of8()
    ensures Pow2(8) == 256
  {
    assert Pow2(4) == 16;
  }

  function Xor(x: byte, y: byte): byte {
    Pow2Of8();
    XorBitsTwice(x as nat, y as nat, 8);
    XorBits(x as nat, y as nat, 8) as byte
  }

  lemma XorTwice(x: byte, k: byte)
    ensures Xor(Xor(x, k), k) == x
  {
    Pow2Of8();
    XorBitsTwice(x as nat, k as nat, 8);
  }

  lemma {:induction false} XorBitsSwap(x: nat, y: nat, bits: nat)
    ensures XorBits(x, y, bits) == XorBits(y, x, bits)
  {
    if bits > 0 {
      XorBitsSwap(x / 2, y / 2, bits - 1);
    }
  }

  /** Masking with the difference to another byte gives the other byte. */
  lemma XorDifference(x: byte, y: byte)
    ensures Xor(x, Xor(y, x)) == y
  {
    XorBitsSwap(x as nat, Xor(y, x) as nat, 8);
    XorTwice(y, x);
  }

  lemma {:induction false} XorBitsZero(x: nat, bits: nat)
    requires x < Pow2(bits)
    ensures XorBits(x, 0, bits) == x
  {
    if bits > 0 {
      XorBitsZero(x / 2, bits - 1);
    }
  }

  lemma XorZero(x: byte)
    ensures Xor(x, 0) == x
  {
    Pow2Of8();
    XorBitsZero(x as nat, 8);
  }

  // The nesting depth of a digest: what makes walks along children end.

  function Height(d: Digest): nat
    decreases d
  {
    match d
    case Merkle(children, _, _, _) => 1 + MaxHeight(children)
    case Foreign(_) => 0
  }

  function MaxHeight(ds: seq<Digest>): nat
    decreases ds
  {
    if ds == [] then 0
    else
      var h, rest := Height(ds[0]), MaxHeight(ds[1..]);
      if h < rest then rest else h
  }

  lemma {:induction false} MaxHeightConcat(a: seq<Digest>, b: seq<Digest>)
    ensures MaxHeight(a + b) == if MaxHeight(a) < MaxHeight(b) then MaxHeight(b) else MaxHeight(a)
  {
    if a == [] {
      assert a + b == b;
    } else {
      assert (a + b)[1..] == a[1..] + b;
      MaxHeightConcat(a[1..], b);
    }
  }
}
