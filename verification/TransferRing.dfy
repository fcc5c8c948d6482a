/** The default control pipe on top of its transfer ring: a request is pushed TRB by TRB and word
    by word while the controller reads the ring, and a completion reads its TRBs back from the
    memory of that ring. */
module TransferRings {
  import opened ControlPipes
  import opened Trbs
  import TrbRing

  /** The TRBs of a request in the order in which they are pushed. */
  function TrbsOf(req: Request): seq<Trb> {
    [SetupOf(req), EventOf(req)] + if req.buf.Some? then [StatusStage(!req.dirIn, false)] else []
  }

  function PushAll(r: TrbRing.Image, ts: seq<Trb>): (r': TrbRing.Image)
    requires r.Valid()
    ensures r'.Valid()
    decreases |ts|
  {
    if ts == [] then r else PushAll(TrbRing.PushImage(r, ts[0]), ts[1..])
  }

  lemma IssueIsPushAll(p: Pipe, req: Request)
    requires p.ring.Valid()
    ensures Issue(p, req).ring == PushAll(p.ring, TrbsOf(req))
  {
    hide TrbRing.PushImage;
    var (a, b, ts) := (SetupOf(req), EventOf(req), TrbsOf(req));
    assert ts[1..][0] == b;
    var r2 := TrbRing.PushImage(TrbRing.PushImage(p.ring, a), b);
    assert PushAll(p.ring, ts) == PushAll(r2, ts[1..][1..]);
    if req.buf.Some? {
      var c := StatusStage(!req.dirIn, false);
      assert ts[1..] == [b, c] && ts[1..][1..] == [c] && [c][1..] == [];
      assert PushAll(r2, [c]) == PushAll(TrbRing.PushImage(r2, c), [c][1..]) == TrbRing.PushImage(r2, c);
    } else {
      assert ts[1..] == [b] && ts[1..][1..] == [];
    }
  }

  /** What the ring will be when the push in progress is finished. */
  function Settled(s: TrbRing.State): TrbRing.Image
    requires TrbRing.WellFormed(s) && s.image.base % 16 == 0
  {
    var r := s.image;
    match s.producer
    case Ready => r
    case Storing(t, _) => TrbRing.PushImage(r, t)
    case Linking(_) => TrbRing.Image(r.base, r.mem[s.Last() := LinkTrb(r.base).Stamp(r.cycle)], 0, !r.cycle)
  }

  /** A store of the driver, like any step of the controller, does not change where the push in
      progress leads. */
  lemma StepKeepsSettled(s: TrbRing.State, a: TrbRing.Action)
    requires TrbRing.WellFormed(s) && TrbRing.Inv(s) && !a.Begin? && s.image.base % 16 == 0
    ensures TrbRing.WellFormed(TrbRing.Step(s, a)) && TrbRing.Step(s, a).image.base == s.image.base
    ensures Settled(TrbRing.Step(s, a)) == Settled(s)
  {
    hide TrbRing.MemoryInv, TrbRing.ConsumerInv, TrbRing.HistoryInv;
    match a {
      case Store => StoreKeepsSettled(s);
      case _ =>
    }
  }

  lemma StoreKeepsSettled(s: TrbRing.State)
    requires TrbRing.WellFormed(s) && s.image.base % 16 == 0
    requires TrbRing.ProducerInv(s.image, s.producer, s.Unread())
    ensures TrbRing.DoStore(s).image.base == s.image.base
    ensures TrbRing.WellFormed(TrbRing.DoStore(s)) && Settled(TrbRing.DoStore(s)) == Settled(s)
  {
    var r := s.image;
    match s.producer {
      case Ready =>
      case Storing(t, k) =>
        if k == 3 { assert r.mem[r.index].(w3 := Word3(t.w3.control, r.cycle)) == t.Stamp(r.cycle); }
      case Linking(k) =>
        if k == 3 { assert r.mem[s.Last()].(w3 := Word3(LinkTrb(r.base).w3.control, r.cycle)) == LinkTrb(r.base).Stamp(r.cycle); }
    }
  }

  /** `pending` are the TRBs of the current request that are not pushed yet; `log` is every TRB of
      every request so far. */
  datatype Channel = Channel(pipe: PipeState, ring: TrbRing.State, pending: seq<Trb>, log: seq<Trb>)

  function NewChannel(dci: nat, base: Address): Channel {
    Channel(Fresh(dci, base), TrbRing.Start(base, TrbRing.RING_SIZE), [], [])
  }

  datatype Move =
    | Call(req: Request)                       // ControlIn or ControlOut is called
    | Push                                     // and goes on to its next TRB
    | Complete(code: nat, residual: nat)       // the event of the oldest request is handled
    | Steps(a: TrbRing.Action)                 // one store of the driver or one load of the controller

  /** The driver is not in the middle of a request or a push. */
  predicate AtRest(c: Channel) {
    c.ring.producer.Ready? && c.pending == []
  }

  /** A request respects the limits of the pipe; the controller raises an event after it has read
      the TRB that asks for it. */
  predicate MayMove(c: Channel, m: Move) {
    match m
    case Call(req) => AtRest(c) && MayIssue(c.pipe, req)
    case Push => c.ring.producer.Ready? && c.pending != []
    case Complete(code, _) =>
      && AtRest(c) && c.pipe.live != [] && (code == CODE_SUCCESS || code == CODE_SHORT_PACKET)
      && c.pipe.live[0].at + 2 <= |c.ring.consumed|
    case Steps(a) => !a.Begin?
  }

  /** The pipe as the handler finds it: the map, and the ring's own memory. */
  function Found(c: Channel): PipeState {
    c.pipe.(pipe := c.pipe.pipe.(ring := c.ring.image))
  }

  /** The next state and the outcome that the driver sees, if there is one. */
  function Next(c: Channel, m: Move): (Channel, seq<Outcome>)
    requires TrbRing.WellFormed(c.ring) && c.pipe.pipe.ring.Valid()
  {
    match m
    case Call(req) => (c.(pipe := DoIssue(c.pipe, req), pending := TrbsOf(req), log := c.log + TrbsOf(req)), [])
    case Push =>
      if c.pending == [] then (c, [])
      else (c.(ring := TrbRing.Step(c.ring, TrbRing.Begin(c.pending[0])), pending := c.pending[1..]), [])
    case Complete(code, residual) =>
      if c.pipe.live == [] || !Runnable(Found(c)) then (c, [])
      else var (p, o) := DoComplete(Found(c), code, residual); (c.(pipe := p), [o])
    case Steps(a) => (c.(ring := TrbRing.Step(c.ring, a)), [])
  }

  predicate PlainTrbs(ts: seq<Trb>) {
    forall i :: 0 <= i < |ts| ==> ts[i].Type() != LINK_TYPE && ts[i].Payload() == ts[i]
  }

  ghost predicate Inv(c: Channel) {
    && ControlPipes.Inv(c.pipe)
    && TrbRing.WellFormed(c.ring) && TrbRing.Inv(c.ring)
    && c.ring.Size() == TrbRing.RING_SIZE
    && c.ring.image.base % 16 == 0
    && Settled(c.ring).Valid() && PushAll(Settled(c.ring), c.pending) == c.pipe.pipe.ring
    && PlainTrbs(c.pending)
    && TrbRing.Promised(c.ring) + c.pending == c.log && |c.log| == c.pipe.total
    && c.pipe.read <= |c.ring.consumed|
  }

  lemma TrbsArePlain(req: Request)
    ensures PlainTrbs(TrbsOf(req)) && |TrbsOf(req)| == req.Trbs()
  {
    LayoutRoundTrip(req, false);
    PayloadsAreStampless(req);
  }

  lemma NewChannelInv(dci: nat, base: Address)
    requires base % 16 == 0
    ensures Inv(NewChannel(dci, base))
  {
    FreshInv(dci, base);
    TrbRing.StartInv(base, TrbRing.RING_SIZE);
    hide ControlPipes.Inv, TrbRing.Inv;
  }

  lemma CallKeepsInv(c: Channel, req: Request)
    requires Inv(c) && AtRest(c) && MayIssue(c.pipe, req)
    ensures Inv(Next(c, Call(req)).0)
  {
    IssueKeepsInv(c.pipe, req);
    IssueIsPushAll(c.pipe.pipe, req);
    TrbsArePlain(req);
    hide ControlPipes.Inv, TrbRing.Inv, Issue, TrbsOf;
    assert c.log == TrbRing.Promised(c.ring) + [] == TrbRing.Promised(c.ring);
  }

  /** Every push of a request is one that the ring allows. */
  lemma PushIsAllowed(c: Channel)
    requires Inv(c) && MayMove(c, Push)
    ensures TrbRing.MayPush(c.ring, c.pending[0])
  {
    WindowFits(c.pipe);
    hide ControlPipes.Inv, TrbRing.Inv;
    TrbRing.PromisedIsPublished(c.ring);
    assert |c.ring.pushed| + |c.pending| == c.pipe.total;
  }

  lemma WindowFits(s: PipeState)
    requires ControlPipes.Inv(s)
    ensures s.total - s.read <= TrbRing.RING_SIZE - 2
  {
  }

  lemma PushKeepsInv(c: Channel)
    requires Inv(c) && MayMove(c, Push)
    ensures Inv(Next(c, Push).0)
  {
    PushIsAllowed(c);
    var t := c.pending[0];
    TrbRing.StepKeepsInv(c.ring, TrbRing.Begin(t));
    TrbRing.StepPromises(c.ring, TrbRing.Begin(t));
    hide ControlPipes.Inv, TrbRing.Inv, TrbRing.PushImage;
    assert c.pending == [t] + c.pending[1..];
    Regroup(TrbRing.Promised(c.ring), t, c.pending[1..]);
  }

  lemma Regroup(x: seq<Trb>, t: Trb, y: seq<Trb>)
    ensures (x + [t]) + y == x + ([t] + y)
  {
  }

  lemma StepsKeepInv(c: Channel, a: TrbRing.Action)
    requires Inv(c) && !a.Begin?
    ensures Inv(Next(c, Steps(a)).0)
  {
    TrbRing.StepKeepsInv(c.ring, a);
    StepKeepsSettled(c.ring, a);
    TrbRing.StepPromises(c.ring, a);
    TrbRing.ConsumedGrows(c.ring, a);
    hide ControlPipes.Inv, TrbRing.Inv, TrbRing.Step;
    assert TrbRing.Promised(c.ring) + [] == TrbRing.Promised(c.ring);
  }

  /** A completion that is read back from the memory of the ring is the reply to its own
      request. */
  lemma CompletionIsExact(c: Channel, code: nat, residual: nat)
    requires Inv(c) && MayMove(c, Complete(code, residual))
    ensures Found(c) == c.pipe
    ensures var (c', o) := Next(c, Complete(code, residual));
            Inv(c') && o == [Reply(c.pipe.live[0].req, residual)] && c'.pipe.live == c.pipe.live[1..]
  {
    assert Found(c) == c.pipe;
    InvIsRunnable(c.pipe);
    CompletionFindsItsRequest(c.pipe, code, residual);
    CompletionCounts(c.pipe, code, residual);
    hide ControlPipes.Inv, TrbRing.Inv, DoComplete, Runnable, Reply;
  }

  lemma CompletionCounts(s: PipeState, code: nat, residual: nat)
    requires s.live != [] && Runnable(s)
    ensures var p := DoComplete(s, code, residual).0;
            p.total == s.total && p.read == s.live[0].at + 2 && p.pipe.ring == s.pipe.ring
  {
  }

  // ---------------------------------------------------------------- every run

  /** A run of the channel and the outcomes that the driver sees in it. */
  ghost predicate IsRun(c: Channel, moves: seq<Move>, c': Channel, seen: seq<Outcome>)
    decreases |moves|
  {
    if moves == [] then c' == c && seen == []
    else
      && MayMove(c, moves[0])
      && TrbRing.WellFormed(c.ring) && c.pipe.pipe.ring.Valid()
      && var (c1, o) := Next(c, moves[0]);
         o <= seen && IsRun(c1, moves[1..], c', seen[|o|..])
  }

  /** The requests and completions of a run. */
  function Actions(moves: seq<Move>): seq<PipeAction> {
    if moves == [] then []
    else
      var rest := Actions(moves[1..]);
      match moves[0]
      case Call(req) => [Submit(req)] + rest
      case Complete(code, residual) => [Finish(code, residual)] + rest
      case _ => rest
  }

  lemma MoveKeepsInv(c: Channel, m: Move)
    requires Inv(c) && MayMove(c, m)
    ensures var (c', o) := Next(c, m);
            && Inv(c')
            && match m
               case Call(req) => o == [] && Requests(c'.pipe.live) == Requests(c.pipe.live) + [req]
               case Complete(_, residual) =>
                 o == [Reply(c.pipe.live[0].req, residual)] && Requests(c'.pipe.live) == Requests(c.pipe.live)[1..]
               case _ => o == [] && c'.pipe == c.pipe
  {
    hide ControlPipes.Inv, TrbRing.Inv;
    match m {
      case Call(req) => CallKeepsInv(c, req);
      case Push => PushKeepsInv(c);
      case Complete(code, residual) => CompletionIsExact(c, code, residual);
      case Steps(a) => StepsKeepInv(c, a);
    }
  }

  lemma {:induction false} RunIsServed(c: Channel, moves: seq<Move>, c': Channel, seen: seq<Outcome>)
    requires Inv(c) && IsRun(c, moves, c', seen)
    ensures Inv(c') && seen == Served(Requests(c.pipe.live), Actions(moves))
    decreases |moves|
  {
    hide Inv, MayMove, Reply, Next, Requests, Served;
    if moves == [] {
      NothingServed(Requests(c.pipe.live));
    } else {
      var m, rest := moves[0], Actions(moves[1..]);
      MoveKeepsInv(c, m);
      MoveIsPossible(c, m);
      var (c1, o) := Next(c, m);
      RunIsServed(c1, moves[1..], c', seen[|o|..]);
      assert seen == o + seen[|o|..];
      NextServed(c.pipe.live, m, rest);
    }
  }

  lemma NothingServed(waiting: seq<Request>)
    ensures Served(waiting, []) == []
  {
  }

  lemma MoveIsPossible(c: Channel, m: Move)
    requires MayMove(c, m)
    ensures m.Complete? ==> c.pipe.live != []
  {
  }

  lemma NextServed(live: seq<Live>, m: Move, rest: seq<PipeAction>)
    requires m.Complete? ==> live != []
    ensures m.Call? ==> Served(Requests(live), [Submit(m.req)] + rest) == Served(Requests(live) + [m.req], rest)
    ensures m.Complete? ==>
              (Served(Requests(live), [Finish(m.code, m.residual)] + rest)
               == [Reply(live[0].req, m.residual)] + Served(Requests(live)[1..], rest))
  {
    assert m.Call? ==> ([Submit(m.req)] + rest)[1..] == rest;
    assert m.Complete? ==> ([Finish(m.code, m.residual)] + rest)[1..] == rest;
    hide Reply;
  }

  /** Every run from a fresh ring, whatever is requested within the limits and however stores and
      loads interleave: the driver sees exactly the replies to its requests, in order; the
      controller has read a prefix of the TRBs of those requests, whole and in order; and at
      most 30 are unread. */
  lemma ChannelIsSafe(dci: nat, base: Address, moves: seq<Move>, c: Channel, seen: seq<Outcome>)
    requires base % 16 == 0 && IsRun(NewChannel(dci, base), moves, c, seen)
    ensures seen == Served([], Actions(moves))
    ensures c.ring.consumed <= c.log && c.ring.Unread() <= TrbRing.RING_SIZE - 2
  {
    NewChannelInv(dci, base);
    RunIsServed(NewChannel(dci, base), moves, c, seen);
    assert Requests(NewChannel(dci, base).pipe.live) == [];
    TrbRing.PromisedIsPublished(c.ring);
    ConsumedIsPrefix(c.ring);
    hide ControlPipes.Inv, IsRun;
  }

  lemma ConsumedIsPrefix(s: TrbRing.State)
    requires TrbRing.Inv(s)
    ensures s.consumed <= s.pushed && s.Unread() <= s.Size() - 2
  {
  }
}
