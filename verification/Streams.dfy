// Block streams between broker and client: two writers on one socket, one
// reader handing frames to an actor per request.

module Streams {
  import opened Types
  import opened Protocol

  // ----- Frames -----

  /** A response: the id of its request, a result code, and a block if it carries one. */
  datatype Frame = Frame(id: nat, result: nat, block: Option<Block>)

  datatype Kind = StreamKind | UnaryKind

  /** What the broker makes of a request: a stream of blocks, or a plain result. */
  datatype Answer =
    | Stream(blocks: Result<seq<Block>, ProtocolError>)
    | Unary(result: Result<(), ProtocolError>)
  {
    function Kind(): Kind {
      if Stream? then StreamKind else UnaryKind
    }

    /** Stream codes mark stream frames; no operation fails with one. */
    predicate Proper() {
      match this
      case Stream(r) => r.Err? ==> !IsStream(r.error)
      case Unary(r) => r.Err? ==> !IsStream(r.error)
    }
  }

  /** `prepare_reply_broker_overlay_message_stream`. */
  function StreamFrame(id: nat, r: Result<Block, ProtocolError>): Frame {
    match r
    case Ok(b) => Frame(id, Code(PartialContent), Some(b))
    case Err(e) => Frame(id, Code(e), None)
  }

  /** `prepare_reply_broker_message` and its overlay variant, for results without a block. */
  function UnaryFrame(id: nat, r: Result<(), ProtocolError>): Frame {
    Frame(id, if r.Ok? then 0 else Code(r.error), None)
  }

  /** The frame returned as the reply. */
  function FirstFrame(id: nat, a: Answer): Frame {
    match a
    case Unary(r) => UnaryFrame(id, r)
    case Stream(Err(e)) => StreamFrame(id, Err(e))
    case Stream(Ok(blocks)) => StreamFrame(id, if blocks == [] then Err(EndOfStream) else Ok(blocks[0]))
  }

  function PartialFrames(id: nat, blocks: seq<Block>): (r: seq<Frame>)
    ensures |r| == |blocks|
  {
    seq(|blocks|, i requires 0 <= i < |blocks| => StreamFrame(id, Ok(blocks[i])))
  }

  /** The frames the returned future sends: the other blocks and the end of the stream, if there was a first block. */
  function LaterFrames(id: nat, a: Answer): seq<Frame> {
    match a
    case Stream(Ok(blocks)) =>
      if blocks == [] then [] else PartialFrames(id, blocks[1..]) + [StreamFrame(id, Err(EndOfStream))]
    case _ => []
  }

  function AllFrames(id: nat, a: Answer): seq<Frame> {
    [FirstFrame(id, a)] + LaterFrames(id, a)
  }

  /** Empty or not, a stream is its blocks and then its end. */
  lemma FramesOfStream(id: nat, blocks: seq<Block>)
    ensures AllFrames(id, Stream(Ok(blocks))) == PartialFrames(id, blocks) + [StreamFrame(id, Err(EndOfStream))]
  {
  }

  /**
   * The frames on the wire: code 7 with each block and code 13 at the end of a
   * stream; the code of an error, or 0, alone.
   */
  lemma FrameCodes(id: nat, a: Answer)
    ensures match a
            case Stream(Ok(blocks)) =>
              var frames := AllFrames(id, a);
              && |frames| == |blocks| + 1 && frames[|blocks|] == Frame(id, 13, None)
              && forall i :: 0 <= i < |blocks| ==> frames[i] == Frame(id, 7, Some(blocks[i]))
            case Stream(Err(e)) => AllFrames(id, a) == [Frame(id, Code(e), None)]
            case Unary(Ok(_)) => AllFrames(id, a) == [Frame(id, 0, None)]
            case Unary(Err(e)) => AllFrames(id, a) == [Frame(id, Code(e), None)]
  {
    match a
    case Stream(Ok(blocks)) => FramesOfStream(id, blocks);
    case _ =>
  }

  // ----- The client's actors -----

  /**
   * The actor of a request: the blocks it has passed on, the outcome it has
   * reported first (an error, or none), the plain reply it has resolved to, and
   * whether it has stopped. `handled` is the history of its messages.
   */
  datatype Actor = Actor(
    kind: Kind,
    handled: seq<Frame>,
    delivered: seq<Block>,
    first: Option<Option<ProtocolError>>,
    reply: Option<Frame>,
    stopped: bool)

  function NewActor(kind: Kind): Actor {
    Actor(kind, [], [], None, None, false)
  }

  /** A response read as `Result<Option<Block>, ProtocolError>`. */
  function ReadFrame(f: Frame): Result<Option<Block>, ProtocolError> {
    match TryFromCode(f.result)
    case None => Ok(f.block)
    case Some(e) => if IsStream(e) then Ok(f.block) else Err(e)
  }

  function Report(a: Actor, error: Option<ProtocolError>): Actor {
    if a.first.None? then a.(first := Some(error)) else a
  }

  /** The actors' message handlers. */
  function HandleFrame(a: Actor, f: Frame): Actor {
    var b := a.(handled := a.handled + [f]);
    match a.kind
    case UnaryKind => b.(reply := Some(f), stopped := true)
    case StreamKind =>
      match ReadFrame(f)
      case Err(e) => Report(b, Some(e)).(stopped := true)
      case Ok(Some(block)) => Report(b, None).(delivered := b.delivered + [block])
      case Ok(None) => Report(b, None).(stopped := true)
  }

  /** Only the first report of a stream's outcome counts: an error, or that there is none. */
  lemma FirstReportStays(a: Actor, f: Frame)
    requires a.kind == StreamKind
    ensures var b := HandleFrame(a, f);
            b.first == if a.first.Some? then a.first
                       else Some(if ReadFrame(f).Err? then Some(ReadFrame(f).error) else None)
  {
  }

  // ----- The system -----

  /** The broker's loop: waiting, about to send a reply, or running the future that came with it. */
  datatype Phase =
    | Idle
    | Replying(reply: Frame, later: seq<Frame>)
    | Pushing(later: seq<Frame>)
  {
    function Frames(): seq<Frame> {
      match this
      case Idle => []
      case Replying(f, later) => [f] + later
      case Pushing(later) => later
    }
  }

  datatype Request = Request(id: nat, kind: Kind)

  datatype Sys = Sys(
    requests: seq<Request>,     // sent, not handled yet
    phase: Phase,
    channel: seq<Frame>,        // async frames not taken yet
    hand: seq<Frame>,           // the one the async task waits for the lock with, if any
    wire: seq<Frame>,           // sent, not read yet
    inbox: seq<Frame>,          // read and passed to actors, not handled yet
    actors: map<nat, Actor>,
    registered: set<nat>,       // keys of the two actor maps
    closed: bool,               // the reader has given up
    answers: map<nat, Answer>)  // history: what the broker answered

  const INIT := Sys([], Idle, [], [], [], [], map[], {}, false, map[])

  datatype Event =
    | Send(id: nat, kind: Kind)
    | Answering(answer: Answer)
    | DirectSend
    | Push
    | Take
    | AsyncSend
    | Dispatch
    | Handle(index: nat)
    | Unregister(id: nat)

  predicate Enabled(s: Sys, e: Event) {
    match e
    case Send(id, _) => id !in s.actors
    case Answering(a) => s.phase.Idle? && s.requests != [] && a.Kind() == s.requests[0].kind && a.Proper()
    case DirectSend => s.phase.Replying?
    case Push => s.phase.Pushing? && s.phase.later != []
    case Take => s.hand == [] && s.channel != []
    case AsyncSend => s.hand != []
    case Dispatch => !s.closed && s.wire != []
    case Handle(i) => i < |s.inbox| && FirstOfItsId(s.inbox, i) && s.inbox[i].id in s.actors && !s.actors[s.inbox[i].id].stopped
    case Unregister(id) => id in s.registered && id in s.actors && s.actors[id].stopped
  }

  /** Messages to one actor are handled in order. */
  predicate FirstOfItsId(fs: seq<Frame>, i: nat)
    requires i < |fs|
  {
    forall j :: 0 <= j < i ==> fs[j].id != fs[i].id
  }

  function Apply(s: Sys, e: Event): Sys
    requires Enabled(s, e)
  {
    match e
    case Send(id, kind) =>
      s.(actors := s.actors[id := NewActor(kind)], registered := s.registered + {id},
         requests := s.requests + [Request(id, kind)])
    case Answering(a) =>
      var id := s.requests[0].id;
      s.(requests := s.requests[1..], answers := s.answers[id := a],
         phase := Replying(FirstFrame(id, a), LaterFrames(id, a)))
    case DirectSend =>
      s.(wire := s.wire + [s.phase.reply], phase := if s.phase.later == [] then Idle else Pushing(s.phase.later))
    case Push =>
      s.(channel := s.channel + [s.phase.later[0]],
         phase := if |s.phase.later| == 1 then Idle else Pushing(s.phase.later[1..]))
    case Take => s.(hand := [s.channel[0]], channel := s.channel[1..])
    case AsyncSend => s.(wire := s.wire + [s.hand[0]], hand := s.hand[1..])
    case Dispatch =>
      var f := s.wire[0];
      if f.id in s.registered && f.id in s.actors && !s.actors[f.id].stopped then
        s.(wire := s.wire[1..], inbox := s.inbox + [f])
      else
        s.(wire := s.wire[1..], closed := true)
    case Handle(i) =>
      var f := s.inbox[i];
      s.(inbox := s.inbox[..i] + s.inbox[i + 1..], actors := s.actors[f.id := HandleFrame(s.actors[f.id], f)])
    case Unregister(id) => s.(registered := s.registered - {id})
  }

  // ----- The flow of one request's frames -----

  function On(fs: seq<Frame>, id: nat): seq<Frame> {
    if fs == [] then []
    else (if fs[0].id == id then [fs[0]] else []) + On(fs[1..], id)
  }

  lemma {:induction false} OnConcat(a: seq<Frame>, b: seq<Frame>, id: nat)
    ensures On(a + b, id) == On(a, id) + On(b, id)
  {
    if a == [] {
      assert a + b == b;
    } else {
      assert (a + b)[1..] == a[1..] + b;
      OnConcat(a[1..], b, id);
      var h := if a[0].id == id then [a[0]] else [];
      assert On(a + b, id) == h + On(a[1..] + b, id);
      hide On;
      assert h + (On(a[1..], id) + On(b, id)) == h + On(a[1..], id) + On(b, id);
    }
  }

  lemma OnOne(f: Frame, id: nat)
    ensures On([f], id) == if f.id == id then [f] else []
  {
    assert [f][1..] == [];
  }

  lemma {:induction false} OnAll(fs: seq<Frame>, id: nat)
    requires forall f <- fs :: f.id == id
    ensures On(fs, id) == fs
  {
    if fs != [] {
      OnAll(fs[1..], id);
    }
  }

  lemma {:induction false} OnNone(fs: seq<Frame>, id: nat)
    requires forall f <- fs :: f.id != id
    ensures On(fs, id) == []
  {
    if fs != [] {
      OnNone(fs[1..], id);
    }
  }

  function HandledBy(s: Sys, id: nat): seq<Frame> {
    if id in s.actors then s.actors[id].handled else []
  }

  /** Everything of one request, from what its actor has handled back to what the broker has yet to send. */
  function Flow(s: Sys, id: nat): seq<Frame> {
    HandledBy(s, id) + On(s.inbox, id) + On(s.wire, id) + On(s.hand, id) + On(s.channel, id) + On(s.phase.Frames(), id)
  }

  function Expected(s: Sys, id: nat): seq<Frame> {
    if id in s.answers then AllFrames(id, s.answers[id]) else []
  }

  /** An actor after a sequence of messages. */
  function After(a: Actor, fs: seq<Frame>): Actor
    decreases |fs|
  {
    if fs == [] then a else HandleFrame(After(a, fs[..|fs| - 1]), fs[|fs| - 1])
  }

  ghost predicate AllAnswered(s: Sys, fs: seq<Frame>) {
    forall f <- fs :: f.id in s.answers
  }

  ghost predicate RequestsOpen(s: Sys) {
    && (forall i, j :: 0 <= i < j < |s.requests| ==> s.requests[i].id != s.requests[j].id)
    && (forall r <- s.requests :: r.id in s.actors && r.id !in s.answers && s.actors[r.id].kind == r.kind)
    && (forall id <- s.actors :: id in s.answers || Request(id, s.actors[id].kind) in s.requests)
  }

  ghost predicate ActorsSound(s: Sys) {
    && (forall id <- s.answers :: id in s.actors && s.answers[id].Kind() == s.actors[id].kind && s.answers[id].Proper())
    && (forall id <- s.actors :: s.actors[id] == After(NewActor(s.actors[id].kind), s.actors[id].handled))
    && (forall id <- s.registered :: id in s.actors)
    && (forall id <- s.actors :: s.actors[id].stopped || id in s.registered)
  }

  ghost predicate FramesSound(s: Sys) {
    && (forall id: nat :: Flow(s, id) == Expected(s, id))
    && AllAnswered(s, s.inbox) && AllAnswered(s, s.wire) && AllAnswered(s, s.hand)
    && AllAnswered(s, s.channel) && AllAnswered(s, s.phase.Frames())
    && (s.phase.Replying? ==> s.phase.Frames() == Expected(s, s.phase.reply.id))
    && (s.phase.Pushing? ==> s.phase.later != [])
  }

  /** What holds in every reachable state. */
  ghost predicate Inv(s: Sys) {
    RequestsOpen(s) && ActorsSound(s) && FramesSound(s) && !s.closed && |s.hand| <= 1
  }

  // ----- What an actor makes of its frames -----

  lemma FramesHaveId(id: nat, a: Answer)
    ensures forall f <- AllFrames(id, a) :: f.id == id
  {
  }

  lemma {:induction false} AfterPartials(id: nat, blocks: seq<Block>)
    ensures var a := After(NewActor(StreamKind), PartialFrames(id, blocks));
            && a.delivered == blocks && !a.stopped && a.kind == StreamKind
            && a.first == (if blocks == [] then None else Some(None))
    decreases |blocks|
  {
    if blocks != [] {
      var n := |blocks| - 1;
      var fs := PartialFrames(id, blocks);
      assert fs[..n] == PartialFrames(id, blocks[..n]);
      AfterPartials(id, blocks[..n]);
      assert ReadFrame(fs[n]) == Ok(Some(blocks[n]));
      assert blocks[..n] + [blocks[n]] == blocks;
    }
  }

  lemma HandleAdds(a: Actor, f: Frame)
    ensures HandleFrame(a, f).handled == a.handled + [f] && HandleFrame(a, f).kind == a.kind
  {
  }

  /** An actor of a plain request, or of a stream answered with an error, gets one frame. */
  lemma AfterOnlyFrame(id: nat, a: Answer)
    requires a.Proper() && !(a.Stream? && a.blocks.Ok?)
    ensures AllFrames(id, a) == [FirstFrame(id, a)]
    ensures var actor := HandleFrame(NewActor(a.Kind()), FirstFrame(id, a));
            && actor.stopped && actor.delivered == []
            && (a.Unary? ==> actor.reply == Some(UnaryFrame(id, a.result)))
            && (a.Stream? ==> actor.first == Some(Some(a.blocks.error)))
  {
    if a.Stream? {
      CodesRoundTrip(a.blocks.error, Code(a.blocks.error));
    }
  }

  lemma AfterStream(id: nat, blocks: seq<Block>)
    ensures var actor := After(NewActor(StreamKind), AllFrames(id, Stream(Ok(blocks))));
            actor.stopped && actor.delivered == blocks && actor.first == Some(None)
  {
    FramesOfStream(id, blocks);
    AfterPartials(id, blocks);
    var end := StreamFrame(id, Err(EndOfStream));
    AfterSnoc(NewActor(StreamKind), PartialFrames(id, blocks), end);
    hide After;
    assert ReadFrame(end) == Ok(None);
  }

  lemma AfterSnoc(a: Actor, fs: seq<Frame>, f: Frame)
    ensures After(a, fs + [f]) == HandleFrame(After(a, fs), f)
  {
    hide HandleFrame;
    assert (fs + [f])[..|fs|] == fs;
  }

  /** The blocks an actor has passed on when it has handled `k` frames, and what it reported first. */
  ghost predicate Knows(actor: Actor, id: nat, a: Answer, k: nat) {
    && (actor.stopped <==> k == |AllFrames(id, a)|)
    && match a
       case Unary(r) => actor.reply == if k == 0 then None else Some(UnaryFrame(id, r))
       case Stream(Ok(blocks)) =>
         actor.delivered == blocks[..if k < |blocks| then k else |blocks|] && actor.first == if k == 0 then None else Some(None)
       case Stream(Err(e)) => actor.delivered == [] && actor.first == if k == 0 then None else Some(Some(e))
  }

  /**
   * After any prefix of its frames an actor has passed on that many blocks of
   * the stream; it stops with the last frame, not before, having passed on all;
   * it reports first what the broker answered.
   */
  lemma AfterPrefix(id: nat, a: Answer, k: nat)
    requires a.Proper() && k <= |AllFrames(id, a)|
    ensures Knows(After(NewActor(a.Kind()), AllFrames(id, a)[..k]), id, a, k)
  {
    hide HandleFrame;
    var all := AllFrames(id, a);
    if a.Stream? && a.blocks.Ok? {
      var blocks := a.blocks.value;
      FramesOfStream(id, blocks);
      if k <= |blocks| {
        assert all[..k] == PartialFrames(id, blocks[..k]);
        AfterPartials(id, blocks[..k]);
      } else {
        assert all[..k] == all && blocks[..|blocks|] == blocks;
        AfterStream(id, blocks);
      }
    } else {
      AfterOnlyFrame(id, a);
      assert k == 1 ==> all[..1] == all && all[..0] == [];
    }
  }

  // ----- Every event keeps the invariant -----

  /** The frames of a request that its actor has not handled yet. */
  function InFlight(s: Sys, id: nat): seq<Frame> {
    On(s.inbox, id) + On(s.wire, id) + On(s.hand, id) + On(s.channel, id) + On(s.phase.Frames(), id)
  }

  lemma FlowSplits(s: Sys, id: nat)
    ensures Flow(s, id) == HandledBy(s, id) + InFlight(s, id)
  {
    hide On;
  }

  /** What is known of one request's actor from the flow. */
  lemma ActorKnows(s: Sys, id: nat)
    requires Inv(s) && id in s.answers
    ensures id in s.actors
    ensures var actor := s.actors[id];
            && actor.handled + InFlight(s, id) == AllFrames(id, s.answers[id])
            && Knows(actor, id, s.answers[id], |actor.handled|)
            && (actor.stopped <==> InFlight(s, id) == [])
  {
    hide AllFrames, On, After, InFlight, RequestsOpen;
    var all, actor := AllFrames(id, s.answers[id]), s.actors[id];
    FlowSplits(s, id);
    assert Flow(s, id) == Expected(s, id) == all;
    assert all[..|actor.handled|] == actor.handled;
    AfterPrefix(id, s.answers[id], |actor.handled|);
  }

  /** A frame under way has a live, registered actor. */
  lemma FrameHasActor(s: Sys, f: Frame)
    requires Inv(s)
    requires f in s.inbox || f in s.wire || f in s.hand || f in s.channel || f in s.phase.Frames()
    ensures f.id in s.answers && f.id in s.actors && !s.actors[f.id].stopped && f.id in s.registered
  {
    hide Flow, Expected, After, On, RequestsOpen;
    assert f.id in s.answers;
    ActorKnows(s, f.id);
    InOn(s.inbox, f);
    InOn(s.wire, f);
    InOn(s.hand, f);
    InOn(s.channel, f);
    InOn(s.phase.Frames(), f);
    assert f in InFlight(s, f.id);
  }

  lemma {:induction false} InOn(fs: seq<Frame>, f: Frame)
    ensures f in fs ==> f in On(fs, f.id)
  {
    if fs != [] {
      InOn(fs[1..], f);
    }
  }

  // One lemma for what each event does to the flow of every request.

  lemma OnHead(fs: seq<Frame>, id: nat)
    requires fs != []
    ensures On(fs, id) == On([fs[0]], id) + On(fs[1..], id)
  {
    OnConcat([fs[0]], fs[1..], id);
    assert [fs[0]] + fs[1..] == fs;
  }

  lemma Shift(a: seq<Frame>, b: seq<Frame>, f: seq<Frame>, c: seq<Frame>)
    ensures a + b + (f + c) == a + (b + f) + c
  {
  }

  lemma FlowOfSend(s: Sys, e: Event, id: nat)
    requires e.Send? && Enabled(s, e)
    ensures Flow(Apply(s, e), id) == Flow(s, id)
  {
    hide On;
  }

  lemma FlowOfPush(s: Sys, id: nat)
    requires Enabled(s, Push)
    ensures Flow(Apply(s, Push), id) == Flow(s, id)
  {
    var f := s.phase.later[0];
    OnHead(s.phase.later, id);
    OnConcat(s.channel, [f], id);
    assert |s.phase.later| == 1 ==> s.phase.later[1..] == [];
    hide On;
    Shift(HandledBy(s, id) + On(s.inbox, id) + On(s.wire, id) + On(s.hand, id),
          On(s.channel, id), On([f], id), On(s.phase.later[1..], id));
  }

  lemma FlowOfTake(s: Sys, id: nat)
    requires Enabled(s, Take)
    ensures Flow(Apply(s, Take), id) == Flow(s, id)
  {
    OnHead(s.channel, id);
    assert On(s.hand, id) == [];
    hide On;
    Shift(HandledBy(s, id) + On(s.inbox, id) + On(s.wire, id), [], On([s.channel[0]], id), On(s.channel[1..], id));
    assert [] + On([s.channel[0]], id) == On([s.channel[0]], id);
    assert HandledBy(s, id) + On(s.inbox, id) + On(s.wire, id) + [] == HandledBy(s, id) + On(s.inbox, id) + On(s.wire, id);
  }

  lemma FlowOfAsyncSend(s: Sys, id: nat)
    requires Enabled(s, AsyncSend)
    ensures Flow(Apply(s, AsyncSend), id) == Flow(s, id)
  {
    OnHead(s.hand, id);
    OnConcat(s.wire, [s.hand[0]], id);
    hide On;
    Shift(HandledBy(s, id) + On(s.inbox, id), On(s.wire, id), On([s.hand[0]], id), On(s.hand[1..], id));
  }

  lemma FlowOfDispatch(s: Sys, id: nat)
    requires Enabled(s, Dispatch) && !Apply(s, Dispatch).closed
    ensures Flow(Apply(s, Dispatch), id) == Flow(s, id)
  {
    OnHead(s.wire, id);
    OnConcat(s.inbox, [s.wire[0]], id);
    hide On;
    Shift(HandledBy(s, id), On(s.inbox, id), On([s.wire[0]], id), On(s.wire[1..], id));
  }

  lemma OnWithout(fs: seq<Frame>, i: nat, id: nat)
    requires i < |fs| && FirstOfItsId(fs, i)
    ensures On(fs, id) == (if id == fs[i].id then [fs[i]] else []) + On(fs[..i] + fs[i + 1..], id)
  {
    var f, before, after := fs[i], fs[..i], fs[i + 1..];
    assert fs == before + ([f] + after);
    OnConcat(before, [f] + after, id);
    OnConcat([f], after, id);
    OnConcat(before, after, id);
    OnOne(f, id);
    if id == f.id {
      OnNone(before, id);
      hide On;
      assert [] + (On([f], id) + On(after, id)) == On([f], id) + ([] + On(after, id));
    } else {
      hide On;
      assert On(before, id) + ([] + On(after, id)) == [] + (On(before, id) + On(after, id));
    }
  }

  lemma FlowOfHandle(s: Sys, i: nat, id: nat)
    requires Enabled(s, Handle(i))
    ensures Flow(Apply(s, Handle(i)), id) == Flow(s, id)
  {
    var f := s.inbox[i];
    OnWithout(s.inbox, i, id);
    HandleAdds(s.actors[f.id], f);
    hide On, HandleFrame;
    var h, rest := HandledBy(s, id), On(s.inbox[..i] + s.inbox[i + 1..], id);
    if id == f.id {
      assert h + ([f] + rest) == h + [f] + rest;
    } else {
      assert [] + rest == rest;
    }
  }

  /** A request's frames are all still to be sent while its reply is. */
  lemma NothingBeforeReply(s: Sys)
    requires Inv(s) && s.phase.Replying?
    ensures var id := s.phase.reply.id;
            HandledBy(s, id) == [] && On(s.inbox, id) == [] && On(s.wire, id) == [] && On(s.hand, id) == [] && On(s.channel, id) == []
    ensures forall f <- s.phase.Frames() :: f.id == s.phase.reply.id
  {
    var id := s.phase.reply.id;
    var frames := s.phase.Frames();
    assert frames == Expected(s, id) && frames[0] == s.phase.reply;
    assert id in s.answers;
    FramesHaveId(id, s.answers[id]);
    OnAll(frames, id);
    hide On, After, RequestsOpen, AllFrames;
    assert |Flow(s, id)| == |frames|;
  }

  /** The frames not on the move when the reply is sent, split at the reply. */
  lemma OnPhase(f: Frame, later: seq<Frame>, wire: seq<Frame>, id: nat)
    ensures On([f] + later, id) == On([f], id) + On(later, id)
    ensures On(wire + [f], id) == On(wire, id) + On([f], id)
    ensures f.id != id ==> On([f], id) == []
  {
    OnConcat([f], later, id);
    OnConcat(wire, [f], id);
    OnOne(f, id);
  }

  lemma FlowOfDirectSend(s: Sys, id: nat)
    requires Inv(s) && Enabled(s, DirectSend)
    ensures Flow(Apply(s, DirectSend), id) == Flow(s, id)
  {
    hide On, Inv;
    var f, later := s.phase.reply, s.phase.later;
    NothingBeforeReply(s);
    OnPhase(f, later, s.wire, id);
    var t := Apply(s, DirectSend);
    assert t.phase.Frames() == later;
    assert On(s.hand, id) + On(s.channel, id) == [] || On([f], id) == [];
    Overtakes(HandledBy(s, id), On(s.inbox, id), On(s.wire, id), On(s.hand, id), On(s.channel, id), On([f], id), On(later, id));
  }

  /** A frame may overtake stages that hold nothing of its request. */
  lemma Overtakes(h: seq<Frame>, i: seq<Frame>, w: seq<Frame>, x: seq<Frame>, c: seq<Frame>, f: seq<Frame>, l: seq<Frame>)
    requires f == [] || x + c == []
    ensures h + i + (w + f) + x + c + l == h + i + w + x + c + (f + l)
  {
    if f == [] {
      assert w + f == w && f + l == l;
    } else {
      assert x == [] && c == [];
    }
  }

  lemma FlowOfAnswering(s: Sys, a: Answer, id: nat)
    requires Inv(s) && Enabled(s, Answering(a))
    ensures Flow(Apply(s, Answering(a)), id) == Expected(Apply(s, Answering(a)), id)
  {
    var rid := s.requests[0].id;
    var after := Apply(s, Answering(a));
    assert Request(rid, s.requests[0].kind) in s.requests && rid !in s.answers;
    FramesHaveId(rid, a);
    assert after.phase.Frames() == AllFrames(rid, a);
    assert Flow(s, id) == Expected(s, id);
    if id == rid {
      OnAll(AllFrames(rid, a), id);
      assert Flow(s, id) == [];
      hide On;
      assert Flow(after, id) == Flow(s, id) + AllFrames(rid, a);
    } else {
      OnNone(AllFrames(rid, a), id);
    }
  }

  lemma AnsweringKeepsRequests(s: Sys, a: Answer)
    requires RequestsOpen(s) && Enabled(s, Answering(a))
    ensures RequestsOpen(Apply(s, Answering(a)))
  {
    hide FirstFrame, LaterFrames;
    var after := Apply(s, Answering(a));
    forall r | r in after.requests
      ensures r.id != s.requests[0].id && r in s.requests
    {
      var i :| 0 <= i < |after.requests| && after.requests[i] == r;
      assert s.requests[i + 1] == r;
    }
    forall id | id in after.actors && id !in after.answers
      ensures Request(id, after.actors[id].kind) in after.requests
    {
      var r := Request(id, s.actors[id].kind);
      assert r in s.requests;
      var i :| 0 <= i < |s.requests| && s.requests[i] == r;
      assert after.requests[i - 1] == r;
    }
  }

  lemma SendKeepsRequests(s: Sys, id: nat, kind: Kind)
    requires RequestsOpen(s) && ActorsSound(s) && Enabled(s, Send(id, kind))
    ensures RequestsOpen(Apply(s, Send(id, kind)))
  {
    hide After;
    var after := Apply(s, Send(id, kind));
    assert after.requests[|s.requests|] == Request(id, kind);
    forall other | other in after.actors && other !in after.answers
      ensures Request(other, after.actors[other].kind) in after.requests
    {
    }
  }

  lemma SameRequests(s: Sys, t: Sys)
    requires RequestsOpen(s) && t.requests == s.requests && t.actors == s.actors && t.answers == s.answers
    ensures RequestsOpen(t)
  {
  }

  lemma KeepsRequests(s: Sys, e: Event)
    requires Inv(s) && Enabled(s, e)
    ensures RequestsOpen(Apply(s, e))
  {
    hide FramesSound, HandleFrame, FirstFrame, LaterFrames, After;
    match e
    case Answering(a) => AnsweringKeepsRequests(s, a);
    case Handle(i) =>
      HandleAdds(s.actors[s.inbox[i].id], s.inbox[i]);
      hide Inv, ActorsSound;
      assert RequestsOpen(s);
    case Send(id, kind) => SendKeepsRequests(s, id, kind);
    case _ =>
      hide Inv, ActorsSound, RequestsOpen;
      SameRequests(s, Apply(s, e));
  }

  lemma KeepsActors(s: Sys, e: Event)
    requires Inv(s) && Enabled(s, e)
    ensures ActorsSound(Apply(s, e))
  {
    hide Flow, Expected, FirstFrame, LaterFrames, FramesSound, HandleFrame, After, AllAnswered;
    match e
    case Answering(a) =>
      assert s.requests[0] in s.requests;
      hide Inv;
    case Send(id, kind) => AfterNone(NewActor(kind));
    case Handle(i) =>
      FrameHasActor(s, s.inbox[i]);
      hide RequestsOpen;
      assert ActorsSound(s);
      hide Inv;
      HandleKeepsActors(s, i);
    case _ =>
      hide Inv, RequestsOpen;
  }

  lemma HandleKeepsActors(s: Sys, i: nat)
    requires ActorsSound(s) && Enabled(s, Handle(i))
    ensures ActorsSound(Apply(s, Handle(i)))
  {
    hide HandleFrame, After;
    var f := s.inbox[i];
    var actor := s.actors[f.id];
    HandleAdds(actor, f);
    AfterSnoc(NewActor(actor.kind), actor.handled, f);
  }

  lemma AfterNone(a: Actor)
    ensures After(a, []) == a
  {
  }

  lemma KeepsFlow(s: Sys, e: Event, id: nat)
    requires Inv(s) && Enabled(s, e) && !Apply(s, e).closed
    ensures Flow(Apply(s, e), id) == Expected(Apply(s, e), id)
  {
    assert Flow(s, id) == Expected(s, id);
    SameAnswers(s, e, id);
    hide Flow, Inv, Expected;
    match e
    case Send(_, _) => FlowOfSend(s, e, id);
    case Answering(a) => FlowOfAnswering(s, a, id);
    case DirectSend => FlowOfDirectSend(s, id);
    case Push => FlowOfPush(s, id);
    case Take => FlowOfTake(s, id);
    case AsyncSend => FlowOfAsyncSend(s, id);
    case Dispatch => FlowOfDispatch(s, id);
    case Handle(i) => FlowOfHandle(s, i, id);
    case Unregister(_) => SameFlow(s, Apply(s, e), id);
  }

  lemma SameAnswers(s: Sys, e: Event, id: nat)
    requires Enabled(s, e)
    ensures !e.Answering? ==> Expected(Apply(s, e), id) == Expected(s, id)
  {
    hide AllFrames, HandleFrame, FirstFrame, LaterFrames, FirstOfItsId;
  }

  lemma SameFlow(s: Sys, t: Sys, id: nat)
    requires t == s.(registered := t.registered)
    ensures Flow(t, id) == Flow(s, id)
  {
    hide On;
  }

  /** The reader always finds the actor of a frame, alive. */
  lemma NeverClosed(s: Sys, e: Event)
    requires Inv(s) && Enabled(s, e)
    ensures !Apply(s, e).closed
  {
    hide Flow, Expected, FirstFrame, LaterFrames, HandleFrame;
    if e.Dispatch? {
      FrameHasActor(s, s.wire[0]);
    }
  }

  lemma KeepsPhase(s: Sys, e: Event)
    requires Inv(s) && Enabled(s, e)
    ensures var t := Apply(s, e);
            && AllAnswered(t, t.inbox) && AllAnswered(t, t.wire) && AllAnswered(t, t.hand)
            && AllAnswered(t, t.channel) && AllAnswered(t, t.phase.Frames())
            && (t.phase.Replying? ==> t.phase.Frames() == Expected(t, t.phase.reply.id))
            && (t.phase.Pushing? ==> t.phase.later != [])
            && |t.hand| <= 1
  {
    hide Flow, HandleFrame, After, RequestsOpen, ActorsSound;
    var t := Apply(s, e);
    assert forall f <- s.phase.Frames() :: f.id in t.answers;
    match e
    case Answering(a) =>
      FramesHaveId(s.requests[0].id, a);
      hide FirstFrame, LaterFrames;
      assert t.phase.Frames() == AllFrames(s.requests[0].id, a);
      assert t.phase.reply.id == s.requests[0].id by { assert t.phase.Frames()[0] in AllFrames(s.requests[0].id, a); }
    case DirectSend =>
      assert s.phase.reply in s.phase.Frames();
      assert forall f <- s.phase.later :: f in s.phase.Frames();
    case Push =>
      assert s.phase.later[0] in s.phase.Frames();
      assert forall f <- s.phase.later[1..] :: f in s.phase.Frames();
    case _ =>
  }

  /** Every event keeps the invariant. */
  lemma EventKeeps(s: Sys, e: Event)
    requires Inv(s) && Enabled(s, e)
    ensures Inv(Apply(s, e))
  {
    NeverClosed(s, e);
    KeepsRequests(s, e);
    KeepsActors(s, e);
    KeepsPhase(s, e);
    forall id: nat ensures Flow(Apply(s, e), id) == Expected(Apply(s, e), id) {
      KeepsFlow(s, e, id);
    }
    hide Enabled, RequestsOpen, ActorsSound, AllAnswered, Flow, Expected;
  }

  // ----- Executions -----

  ghost predicate Execution(states: seq<Sys>, events: seq<Event>) {
    && |states| == |events| + 1 && states[0] == INIT
    && forall i :: 0 <= i < |events| ==> Enabled(states[i], events[i]) && states[i + 1] == Apply(states[i], events[i])
  }

  lemma {:induction false} ReachableInv(states: seq<Sys>, events: seq<Event>)
    requires Execution(states, events)
    ensures Inv(states[|events|])
    decreases |events|
  {
    hide Enabled, Apply, Inv;
    if events == [] {
      InitInv();
    } else {
      var n := |events| - 1;
      ReachableInv(states[..|events|], events[..n]);
      assert states[..|events|][n] == states[n];
      EventKeeps(states[n], events[n]);
    }
  }

  lemma InitInv()
    ensures Inv(INIT)
  {
  }

  /**
   * In every reachable state, whatever the interleaving of the two writers and
   * the reader: the reader has not given up; each request's actor has passed
   * on, in order, a prefix of the blocks the broker answered; it has stopped
   * exactly when none of its frames is under way, and then it has passed on all
   * of them; and what it reported first is what the broker answered.
   */
  lemma StreamsAreDelivered(states: seq<Sys>, events: seq<Event>, id: nat)
    requires Execution(states, events)
    ensures var s := states[|events|];
            && !s.closed
            && (id in s.answers ==>
                  && id in s.actors
                  && (s.actors[id].stopped <==> InFlight(s, id) == [])
                  && match s.answers[id]
                     case Unary(r) => s.actors[id].reply == if s.actors[id].stopped then Some(UnaryFrame(id, r)) else None
                     case Stream(Ok(blocks)) =>
                       && s.actors[id].delivered <= blocks
                       && (s.actors[id].stopped ==> s.actors[id].delivered == blocks && s.actors[id].first == Some(None))
                     case Stream(Err(e)) =>
                       && s.actors[id].delivered == []
                       && (s.actors[id].stopped <==> s.actors[id].first == Some(Some(e))))
  {
    ReachableInv(states, events);
    var s := states[|events|];
    if id in s.answers {
      ActorKnows(s, id);
      hide Flow, InFlight, After, Inv, Execution;
      if s.answers[id].Stream? && s.answers[id].blocks.Ok? {
        FramesOfStream(id, s.answers[id].blocks.value);
      }
    }
  }

  // ----- Progress -----

  /** Everything but the client making another request. */
  ghost predicate Internal(s: Sys, e: Event) {
    !e.Send? && Enabled(s, e)
  }

  /** Either some part of the system can move, or every request is done with. */
  lemma MovesOrDone(s: Sys)
    requires Inv(s)
    ensures (exists e :: Internal(s, e)) || (s.requests == [] && s.registered == {} && forall id <- s.actors :: id in s.answers && s.actors[id].stopped)
  {
    hide Flow, Expected, After, Knows, AllAnswered;
    if s.phase.Replying? {
      assert Internal(s, DirectSend);
    } else if s.phase.Pushing? {
      assert Internal(s, Push);
    } else if s.hand != [] {
      assert Internal(s, AsyncSend);
    } else if s.channel != [] {
      assert Internal(s, Take);
    } else if s.wire != [] {
      assert Internal(s, Dispatch);
    } else if s.inbox != [] {
      FrameHasActor(s, s.inbox[0]);
      assert Internal(s, Handle(0));
    } else if s.requests != [] {
      assert Internal(s, Answering(if s.requests[0].kind == UnaryKind then Unary(Ok(())) else Stream(Ok([]))));
    } else {
      forall id | id in s.actors
        ensures id in s.answers && s.actors[id].stopped
      {
        assert id in s.answers;
        ActorKnows(s, id);
      }
      if id :| id in s.registered {
        assert Internal(s, Unregister(id));
      }
    }
  }

  /** How far the frames under way still have to go. */
  function Work(s: Sys): nat {
    (match s.phase case Idle => 0 case Replying(_, later) => 3 + 5 * |later| case Pushing(later) => 5 * |later|)
    + 4 * |s.channel| + 3 * |s.hand| + 2 * |s.wire| + |s.inbox| + |s.registered|
  }

  /** Without new requests the system cannot move forever: either one fewer request waits, or there is less work. */
  lemma MovesEnd(s: Sys, e: Event)
    requires Inv(s) && Internal(s, e)
    ensures var t := Apply(s, e);
            |t.requests| < |s.requests| || (|t.requests| == |s.requests| && Work(t) < Work(s))
  {
    hide HandleFrame, FirstFrame, LaterFrames, Inv;
    NeverClosed(s, e);
  }

  /** When nothing moves any more, every stream asked for has arrived whole, and every plain request is answered. */
  lemma QuietMeansDelivered(states: seq<Sys>, events: seq<Event>, id: nat)
    requires Execution(states, events)
    requires var s := states[|events|]; id in s.actors && forall e :: !Internal(s, e)
    ensures var s := states[|events|];
            id in s.answers && s.actors[id].stopped
            && match s.answers[id]
               case Unary(r) => s.actors[id].reply == Some(UnaryFrame(id, r))
               case Stream(Ok(blocks)) => s.actors[id].delivered == blocks
               case Stream(Err(e)) => s.actors[id].first == Some(Some(e))
  {
    ReachableInv(states, events);
    StreamsAreDelivered(states, events, id);
    hide Inv, Execution, InFlight, Internal;
    MovesOrDone(states[|events|]);
  }
}
