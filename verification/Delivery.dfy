// From the broker's store to the client's object: what the broker answers,
// what the streams deliver, and what the client makes of it.

module Delivery {
  import opened Types
  import opened Objects
  import opened Storing
  import opened RepoStore
  import opened StoreInvariants
  import opened Needs
  import Broker
  import Protocol
  import Sizes
  import Streams

  /** What `get_block` with children answers from a store. */
  function BlockAnswer(s: Suite, st: Store, id: Digest): Streams.Answer
    requires Filed(st)
  {
    Streams.Stream(if Load(s, st, id, None).Ok? then Ok(Broker.Dedup(Layout(st, [id]), {})) else Err(Protocol.NotFound))
  }

  /** That is the result of the broker's method, of the kind and codes a stream may have. */
  method AnswerGet(store: LmdbRepoStore, s: Suite, id: Digest) returns (a: Streams.Answer)
    requires Valid(store.State()) && Filed(store.main)
    modifies store
    ensures Valid(store.State()) && store.main == old(store.main) && Filed(store.main)
    ensures a == BlockAnswer(s, store.main, id) && a.Proper() && a.Kind() == Streams.StreamKind
  {
    hide Valid, Load, Layout, Broker.Dedup;
    var r, _ := Broker.GetBlock(store, s, id, true);
    a := Streams.Stream(r);
  }

  /** What the client's `get_object` returns, given its actor when it has stopped. */
  function Received(s: Suite, actor: Streams.Actor, id: Digest): Result<Object, Protocol.ProtocolError>
    requires AllCoherent(actor.delivered)
  {
    match actor.first
    case Some(Some(e)) => Err(e)
    case _ => Broker.Rebuilt(s, actor.delivered, id)
  }

  /**
   * In every reachable state, whatever else is under way: if the broker answered
   * request `rid` from `st` and its actor has stopped, the client gets the
   * object, as the broker loads it, exactly if the broker can load it and all it
   * needs are its own blocks; an object the broker cannot load is not found.
   */
  lemma ObjectDelivered(states: seq<Streams.Sys>, events: seq<Streams.Event>, rid: nat, s: Suite, st: Store, id: Digest)
    requires Streams.Execution(states, events) && Filed(st) && Keyless(st)
    requires var sys := states[|events|];
             rid in sys.answers && sys.answers[rid] == BlockAnswer(s, st, id) && rid in sys.actors && sys.actors[rid].stopped
    ensures var actor := states[|events|].actors[rid];
            && AllCoherent(actor.delivered)
            && var r, here := Received(s, actor, id), Load(s, st, id, None);
               && (r.Ok? <==> here.Ok? && forall x <- Needed(st, id) :: x in Broker.IdSet(Layout(st, [id])))
               && (r.Ok? ==> SameObject(Ok(r.value), here))
               && (here.Err? ==> r == Err(Protocol.NotFound))
  {
    hide Load, Layout, Broker.Dedup, Needed, SameObject, Broker.Rebuilt, Streams.Execution, Streams.InFlight;
    Streams.StreamsAreDelivered(states, events, rid);
    if Load(s, st, id, None).Ok? {
      Broker.StreamRebuilds(s, st, id);
    }
  }

  /** Whatever error the broker answers a request for an object with, the client returns that error. */
  lemma ErrorDelivered(states: seq<Streams.Sys>, events: seq<Streams.Event>, rid: nat, s: Suite, id: Digest, e: Protocol.ProtocolError)
    requires Streams.Execution(states, events)
    requires var sys := states[|events|];
             rid in sys.answers && sys.answers[rid] == Streams.Stream(Err(e)) && rid in sys.actors && sys.actors[rid].stopped
    ensures var actor := states[|events|].actors[rid]; AllCoherent(actor.delivered) && Received(s, actor, id) == Err(e)
  {
    hide Streams.Execution, Streams.InFlight, Broker.Rebuilt;
    Streams.StreamsAreDelivered(states, events, rid);
  }

  /**
   * When nothing moves any more, every request for an object has its outcome:
   * the actor has stopped, so the above says what the client has.
   */
  lemma QuietObjectDelivered(states: seq<Streams.Sys>, events: seq<Streams.Event>, rid: nat, s: Suite, st: Store, id: Digest)
    requires Streams.Execution(states, events) && Filed(st) && Keyless(st)
    requires var sys := states[|events|];
             rid in sys.actors && (forall e :: !Streams.Internal(sys, e))
             && (rid in sys.answers ==> sys.answers[rid] == BlockAnswer(s, st, id))
    ensures var actor := states[|events|].actors[rid];
            && AllCoherent(actor.delivered)
            && (Received(s, actor, id).Ok? <==>
                  Load(s, st, id, None).Ok? && forall x <- Needed(st, id) :: x in Broker.IdSet(Layout(st, [id])))
  {
    hide Load, Layout, Broker.Dedup, Needed, Received, BlockAnswer, Streams.Execution, Streams.Internal;
    Streams.QuietMeansDelivered(states, events, rid);
    ObjectDelivered(states, events, rid, s, st, id);
  }

  /**
   * The round trip over the wire: an object with at most eight deps whose blocks
   * were put is, once its actor has stopped, received with its id, blocks and
   * deps; read with its root key, it has the content that was put.
   */
  lemma PutIsReceived(states: seq<Streams.Sys>, events: seq<Streams.Event>, rid: nat, s: Suite, content: ObjectContent,
                      deps: seq<Digest>, expiry: Option<Timestamp>, blockSize: nat, pubkey: Key, secret: Key, db: Db)
    requires Streams.Execution(states, events)
    requires s.Sound() && blockSize + Sizes.HEADER < Sizes.USIZE_LIMIT && |deps| <= 8
    requires Valid(db) && Filed(db.main) && Contains(db.main, New(s, content, deps, expiry, blockSize, pubkey, secret).blocks)
    requires var sys := states[|events|];
             rid in sys.answers && rid in sys.actors && sys.actors[rid].stopped
             && sys.answers[rid] == BlockAnswer(s, db.main, New(s, content, deps, expiry, blockSize, pubkey, secret).Id())
    ensures var o, actor := New(s, content, deps, expiry, blockSize, pubkey, secret), states[|events|].actors[rid];
            && AllCoherent(actor.delivered)
            && var r := Received(s, actor, o.Id());
               && r.Ok? && r.value.blocks != []
               && Alike(r.value.blocks, o.blocks) && r.value.Id() == o.Id() && r.value.deps == deps
               && Content(s, Object(WithRootKey(r.value.blocks, o.Key()), deps)) == Ok(content)
  {
    hide New, Valid, Load, Layout, Content, Broker.Dedup, Broker.Rebuilt, Contains, Streams.Execution, Streams.InFlight;
    Streams.StreamsAreDelivered(states, events, rid);
    Broker.ClientRoundTrip(s, content, deps, expiry, blockSize, pubkey, secret, db);
  }

  /**
   * A sync over the wire: when the actor of a `sync_branch` request has stopped,
   * the client can load a commit that was sent exactly if all it needs are blocks
   * of commits sent.
   */
  lemma CommitsDelivered(states: seq<Streams.Sys>, events: seq<Streams.Event>, rid: nat, s: Suite, st: Store,
                         stream: seq<Block>, commits: set<Digest>, id: Digest)
    requires Streams.Execution(states, events) && Filed(st) && Keyless(st)
    requires id in commits && Load(s, st, id, None).Ok?
    requires forall x :: x in Ids(stream) <==> Broker.BlockOfAny(st, commits, x)
    requires forall b <- stream :: b.Id() in st && st[b.Id()] == b
    requires var sys := states[|events|];
             rid in sys.answers && sys.answers[rid] == Streams.Stream(Ok(stream)) && rid in sys.actors && sys.actors[rid].stopped
    ensures var delivered := states[|events|].actors[rid].delivered;
            && AllCoherent(delivered) && Filed(Broker.ClientStore(delivered))
            && var r := Load(s, Broker.ClientStore(delivered), id, None);
               && (r.Ok? <==> forall x <- Needed(st, id) :: Broker.BlockOfAny(st, commits, x))
               && (r.Ok? ==> SameObject(r, Load(s, st, id, None)))
  {
    hide Load, Layout, Needed, SameObject, Broker.PutAll, Streams.Execution, Streams.InFlight;
    Streams.StreamsAreDelivered(states, events, rid);
    Broker.SyncedCommitsLoad(s, st, stream, commits, id);
  }
}
