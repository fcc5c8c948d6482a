/** A device on its own transfer ring: every request that the device logic issues goes to the
    default control pipe TRB by TRB and word by word, and every completion is read back from
    the ring. */
module DeviceChannels {
  import opened ControlPipes
  import opened Descriptors
  import opened DeviceRuns
  import opened EndpointLimits
  import opened Trbs
  import opened UsbDevices
  import TransferRings
  import TrbRing

  // ---------------------------------------------------------------- what a handler issues

  datatype Event =
    | Begin                                                       // the device is addressed
    | Answered(code: nat, residual: nat, answer: seq<Descriptor>) // the oldest request completes
    | Configured                                                  // the endpoints are configured
    | ReportFinished                                              // by the controller, no handler yet
    | ReportHandled

  predicate MayHappen(d: Dev, e: Event) {
    match e
    case Begin => d.usb.phase == 0
    case Answered(code, _, ds) => GoodAnswer(d, ds) && (code == CODE_SUCCESS || code == CODE_SHORT_PACKET)
    case Configured => d.usb.phase == 4 && d.told == 0
    case ReportFinished => d.inFlight > 0
    case ReportHandled => d.reports > 0
  }

  function After(d: Dev, e: Event): Dev
    requires MayHappen(d, e)
  {
    match e
    case Begin => Start(d)
    case Answered(code, residual, ds) => OnControlEvent(d, code, residual, ds)
    case Configured => OnConfigured(d)
    case ReportFinished => FinishInterrupt(d)
    case ReportHandled => OnInterruptEvent(d)
  }

  /** The control requests that the handler of an event issues, in order. */
  function Asks(d: Dev, e: Event): seq<Request>
    requires MayHappen(d, e)
  {
    match e
    case Begin => [Started(d.usb, d.buffer).1]
    case Answered(_, _, ds) =>
      var next := OnControl(d.usb, Asked(d), ds, d.buffer).next;
      if next.None? then [] else [next.value]
    case Configured => ProtocolRequestsOf(Calls(d.usb.drivers))
    case _ => []
  }

  function ProtocolRequestsOf(calls: seq<ClassDriver>): seq<Request> {
    if calls == [] then [] else ProtocolRequestsOf(calls[..|calls| - 1]) + [SetProtocolRequest(calls[|calls| - 1])]
  }

  /** The pipe after these requests, first one first. */
  function IssueAll(s: PipeState, reqs: seq<Request>): (s': PipeState)
    requires s.pipe.ring.Valid()
    ensures s'.pipe.ring.Valid()
    ensures s'.read == s.read && s'.total >= s.total + if reqs == [] then 0 else reqs[0].Trbs()
    decreases |reqs|
  {
    if reqs == [] then s else IssueAll(DoIssue(s, reqs[0]), reqs[1..])
  }

  lemma StaysValid(s: PipeState, req: Request)
    requires s.pipe.ring.Valid()
    ensures DoIssue(s, req).pipe.ring.Valid()
  {
  }

  lemma {:induction false} IssueOneMore(s: PipeState, reqs: seq<Request>, req: Request)
    requires s.pipe.ring.Valid()
    ensures IssueAll(s, reqs + [req]) == DoIssue(IssueAll(s, reqs), req)
    decreases |reqs|
  {
    hide DoIssue;
    if reqs == [] {
      assert ([] + [req])[1..] == [] && [] + [req] == [req];
      IssueOne(s, req);
    } else {
      assert (reqs + [req])[1..] == reqs[1..] + [req];
      StaysValid(s, reqs[0]);
      IssueOneMore(DoIssue(s, reqs[0]), reqs[1..], req);
    }
  }

  lemma IssueOne(s: PipeState, req: Request)
    requires s.pipe.ring.Valid()
    ensures IssueAll(s, []) == s && IssueAll(s, [req]) == DoIssue(s, req)
  {
    hide DoIssue;
    StaysValid(s, req);
    assert [req][1..] == [];
    assert IssueAll(s, [req]) == IssueAll(DoIssue(s, req), []);
  }

  lemma {:induction false} TellAllIssues(d: Dev, calls: seq<ClassDriver>)
    requires d.pipe.pipe.ring.Valid()
    ensures TellAll(d, calls).pipe == IssueAll(d.pipe, ProtocolRequestsOf(calls))
  {
    hide DoIssue, TellOne, SetProtocolRequest;
    if calls != [] {
      var rest, last := calls[..|calls| - 1], calls[|calls| - 1];
      TellAllIssues(d, rest);
      TellOneIssues(TellAll(d, rest), last);
      IssueOneMore(d.pipe, ProtocolRequestsOf(rest), SetProtocolRequest(last));
    }
  }

  /** The pipe that the handler of an event starts from: a completion takes the oldest request
      out. */
  function Before(d: Dev, e: Event): PipeState
    requires Runnable(d.pipe) && MayHappen(d, e)
  {
    if e.Answered? then DoComplete(d.pipe, e.code, e.residual).0 else d.pipe
  }

  /** What the device logic does to the pipe is to issue its requests one by one. */
  lemma HandlerIssues(d: Dev, e: Event)
    requires DeviceRuns.Inv(d) && MayHappen(d, e)
    ensures Runnable(d.pipe) && Before(d, e).pipe.ring.Valid()
    ensures DeviceRuns.Inv(After(d, e)) && After(d, e).pipe == IssueAll(Before(d, e), Asks(d, e))
    ensures |Asks(d, e)| <= ENDPOINT_NUMBERS - 1
  {
    hide ControlPipes.Inv, Runnable, DoIssue, DoComplete, IssueAll, PhaseInv, Start, OnControlEvent, OnConfigured;
    ValidPipe(d);
    match e {
      case Begin => BeginIssues(d);
      case Answered(code, residual, ds) => AnsweredIssues(d, code, residual, ds);
      case Configured => ConfiguredIssues(d);
      case _ =>
        InterruptKeepsInv(d);
        IssueOne(d.pipe, SetConfigurationRequest(0));
    }
  }

  lemma ValidPipe(d: Dev)
    requires DeviceRuns.Inv(d)
    ensures Runnable(d.pipe) && d.pipe.pipe.ring.Valid()
  {
    InvIsRunnable(d.pipe);
  }

  lemma BeginIssues(d: Dev)
    requires DeviceRuns.Inv(d) && d.usb.phase == 0
    ensures d.pipe.pipe.ring.Valid() && DeviceRuns.Inv(Start(d))
    ensures Start(d).pipe == IssueAll(d.pipe, [Started(d.usb, d.buffer).1])
  {
    ValidPipe(d);
    StartKeepsInv(d);
    IssueOne(d.pipe, Started(d.usb, d.buffer).1);
    hide ControlPipes.Inv, Issue, PhaseInv;
  }

  lemma AnsweredIssues(d: Dev, code: nat, residual: nat, ds: seq<Descriptor>)
    requires DeviceRuns.Inv(d) && GoodAnswer(d, ds) && Runnable(d.pipe)
    requires code == CODE_SUCCESS || code == CODE_SHORT_PACKET
    ensures DeviceRuns.Inv(OnControlEvent(d, code, residual, ds))
    ensures var (s, asks) := (DoComplete(d.pipe, code, residual).0, Asks(d, Answered(code, residual, ds)));
            && s.pipe.ring.Valid() && |asks| <= 1
            && OnControlEvent(d, code, residual, ds).pipe == IssueAll(s, asks)
  {
    hide PhaseInv, DoIssue, OwnEndpoints, OnControlEvent, DoComplete;
    ControlEventKeepsInv(d, code, residual, ds);
    var p := ControlEventIs(d, code, residual, ds);
    var next := OnControl(d.usb, Asked(d), ds, d.buffer).next;
    assert p.pipe.ring.Valid();
    hide ControlPipes.Inv, Runnable;
    IssueOne(p, if next.Some? then next.value else SetConfigurationRequest(0));
    ReactIssues(d.(pipe := p), Asked(d), ds);
  }

  lemma ReactIssues(d: Dev, setup: SetupData, ds: seq<Descriptor>)
    requires d.pipe.pipe.ring.Valid() && (setup.request == GET_DESCRIPTOR ==> IsReply(ds))
    ensures var next := OnControl(d.usb, setup, ds, d.buffer).next;
            React(d, setup, ds).pipe == if next.None? then d.pipe else DoIssue(d.pipe, next.value)
  {
    hide DoIssue, OnControl;
  }

  lemma ConfiguredIssues(d: Dev)
    requires DeviceRuns.Inv(d) && d.usb.phase == 4 && d.told == 0
    ensures d.pipe.pipe.ring.Valid() && DeviceRuns.Inv(OnConfigured(d))
    ensures OnConfigured(d).pipe == IssueAll(d.pipe, ProtocolRequestsOf(Calls(d.usb.drivers)))
    ensures |ProtocolRequestsOf(Calls(d.usb.drivers))| <= ENDPOINT_NUMBERS - 1
  {
    hide ControlPipes.Inv, Runnable, PhaseInv, IssueAll;
    ValidPipe(d);
    ConfiguredKeepsInv(d);
    TellAllIssues(d, Calls(d.usb.drivers));
    OneRequestEach(Calls(d.usb.drivers));
  }

  lemma {:induction false} OneRequestEach(calls: seq<ClassDriver>)
    ensures |ProtocolRequestsOf(calls)| == |calls|
  {
    if calls != [] { OneRequestEach(calls[..|calls| - 1]); }
  }

  // ---------------------------------------------------------------- the device and its ring

  /** `todo` are the requests of the current handler that are not called yet; the device is
      already where the handler will leave it. */
  datatype Wire = Wire(dev: Dev, channel: TransferRings.Channel, todo: seq<Request>)

  function NewWire(base: Address, buffer: Address): Wire {
    Wire(NewDev(base, buffer), TransferRings.NewChannel(EP0_DCI, base), [])
  }

  datatype Action =
    | Happens(e: Event)                // a handler starts
    | Calling                           // it calls ControlIn or ControlOut for its next request
    | Pushes                           // which goes on to its next TRB
    | Steps(a: TrbRing.Action)         // one store of the driver or one load of the controller

  predicate MayAct(w: Wire, a: Action) {
    match a
    case Happens(e) =>
      && w.todo == [] && TransferRings.AtRest(w.channel) && MayHappen(w.dev, e)
      && (e.Answered? ==> w.dev.pipe.live[0].at + 2 <= |w.channel.ring.consumed|)
    case Calling => w.todo != [] && TransferRings.AtRest(w.channel)
    case Pushes => w.channel.ring.producer.Ready? && w.channel.pending != []
    case Steps(a) => !a.Begin?
  }

  /** What the action is for the channel, if it is anything. */
  function OnChannel(w: Wire, a: Action): seq<TransferRings.Move> {
    match a
    case Happens(e) => if e.Answered? then [TransferRings.Complete(e.code, e.residual)] else []
    case Calling => if w.todo == [] then [] else [TransferRings.Call(w.todo[0])]
    case Pushes => [TransferRings.Push]
    case Steps(a) => [TransferRings.Steps(a)]
  }

  function ChannelAfter(c: TransferRings.Channel, ms: seq<TransferRings.Move>): TransferRings.Channel
    requires TrbRing.WellFormed(c.ring) && c.pipe.pipe.ring.Valid() && |ms| <= 1
  {
    if ms == [] then c else TransferRings.Next(c, ms[0]).0
  }

  ghost predicate WireInv(w: Wire) {
    && DeviceRuns.Inv(w.dev)
    && TransferRings.Inv(w.channel)
    && w.channel.pipe.pipe.ring.Valid()
    && IssueAll(w.channel.pipe, w.todo) == w.dev.pipe
  }

  function Act(w: Wire, a: Action): Wire
    requires MayAct(w, a) && TrbRing.WellFormed(w.channel.ring) && w.channel.pipe.pipe.ring.Valid()
  {
    var c := ChannelAfter(w.channel, OnChannel(w, a));
    match a
    case Happens(e) => Wire(After(w.dev, e), c, Asks(w.dev, e))
    case Calling => Wire(w.dev, c, w.todo[1..])
    case _ => Wire(w.dev, c, w.todo)
  }

  lemma NewWireInv(base: Address, buffer: Address)
    requires base % 16 == 0
    ensures WireInv(NewWire(base, buffer))
  {
    NewDevInv(base, buffer);
    TransferRings.NewChannelInv(EP0_DCI, base);
    hide DeviceRuns.Inv, TransferRings.Inv;
  }

  lemma WireIsReady(w: Wire)
    requires WireInv(w)
    ensures TrbRing.WellFormed(w.channel.ring) && w.channel.pipe.pipe.ring.Valid()
  {
    hide DeviceRuns.Inv, ControlPipes.Inv, IssueAll, TrbRing.Inv;
  }

  /** The next request of a handler respects the limit of the channel, since the device ends
      within it. */
  lemma NextRequestFits(w: Wire)
    requires WireInv(w) && w.todo != []
    ensures MayIssue(w.channel.pipe, w.todo[0])
  {
    hide TransferRings.Inv, IssueAll, PhaseInv;
    TransferRings.WindowFits(w.dev.pipe);
  }

  /** Every action of the device is a legal move of the channel, or none, and keeps both in
      step. */
  lemma ActKeepsInv(w: Wire, a: Action)
    requires WireInv(w) && MayAct(w, a)
    ensures TrbRing.WellFormed(w.channel.ring) && w.channel.pipe.pipe.ring.Valid()
    ensures WireInv(Act(w, a))
    ensures OnChannel(w, a) != [] ==> TransferRings.MayMove(w.channel, OnChannel(w, a)[0])
  {
    WireIsReady(w);
    match a {
      case Happens(e) => HappensKeepsInv(w, e);
      case Calling => CallKeepsInv(w);
      case Pushes => ChannelKeepsInv(w, a, TransferRings.Push);
      case Steps(b) => ChannelKeepsInv(w, a, TransferRings.Steps(b));
    }
  }

  lemma CallKeepsInv(w: Wire)
    requires WireInv(w) && MayAct(w, Calling)
    requires TrbRing.WellFormed(w.channel.ring) && w.channel.pipe.pipe.ring.Valid()
    ensures TransferRings.MayMove(w.channel, TransferRings.Call(w.todo[0])) && WireInv(Act(w, Calling))
  {
    NextRequestFits(w);
    hide DeviceRuns.Inv, TransferRings.Inv, DoIssue, MayIssue;
    TransferRings.MoveKeepsInv(w.channel, TransferRings.Call(w.todo[0]));
  }

  lemma ChannelKeepsInv(w: Wire, a: Action, m: TransferRings.Move)
    requires WireInv(w) && MayAct(w, a) && OnChannel(w, a) == [m] && (m.Push? || m.Steps?)
    requires TrbRing.WellFormed(w.channel.ring) && w.channel.pipe.pipe.ring.Valid()
    ensures TransferRings.MayMove(w.channel, m) && WireInv(Act(w, a))
  {
    hide DeviceRuns.Inv, TransferRings.Inv, IssueAll;
    TransferRings.MoveKeepsInv(w.channel, m);
  }

  lemma HappensKeepsInv(w: Wire, e: Event)
    requires WireInv(w) && MayAct(w, Happens(e))
    requires TrbRing.WellFormed(w.channel.ring) && w.channel.pipe.pipe.ring.Valid()
    ensures WireInv(Act(w, Happens(e)))
    ensures e.Answered? ==> TransferRings.MayMove(w.channel, TransferRings.Complete(e.code, e.residual))
  {
    assert w.channel.pipe == w.dev.pipe;
    hide DeviceRuns.Inv, TransferRings.Inv, IssueAll, Runnable, After, Asks, DoComplete;
    HandlerIssues(w.dev, e);
    if e.Answered? {
      TransferRings.MoveKeepsInv(w.channel, TransferRings.Complete(e.code, e.residual));
      CompletesOnRing(w.channel, e.code, e.residual);
    }
  }

  /** The pipe after a completion that is read from the ring. */
  lemma CompletesOnRing(c: TransferRings.Channel, code: nat, residual: nat)
    requires TransferRings.Inv(c) && TransferRings.MayMove(c, TransferRings.Complete(code, residual))
    ensures TrbRing.WellFormed(c.ring) && c.pipe.pipe.ring.Valid() && Runnable(c.pipe)
    ensures TransferRings.Next(c, TransferRings.Complete(code, residual)).0.pipe == DoComplete(c.pipe, code, residual).0
  {
    TransferRings.CompletionIsExact(c, code, residual);
    InvIsRunnable(c.pipe);
    hide ControlPipes.Inv, TrbRing.Inv, DoComplete;
  }

  // ---------------------------------------------------------------- every run

  ghost predicate IsRun(w: Wire, actions: seq<Action>, w': Wire)
    decreases |actions|
  {
    if actions == [] then w' == w
    else
      && MayAct(w, actions[0])
      && TrbRing.WellFormed(w.channel.ring) && w.channel.pipe.pipe.ring.Valid()
      && IsRun(Act(w, actions[0]), actions[1..], w')
  }

  lemma {:induction false} RunIsChannelRun(w: Wire, actions: seq<Action>, w': Wire)
    returns (moves: seq<TransferRings.Move>, seen: seq<Outcome>)
    requires WireInv(w) && IsRun(w, actions, w')
    ensures WireInv(w') && TransferRings.IsRun(w.channel, moves, w'.channel, seen)
    decreases |actions|
  {
    hide WireInv, MayAct;
    if actions == [] {
      moves, seen := [], [];
    } else {
      ActKeepsInv(w, actions[0]);
      var w1 := Act(w, actions[0]);
      moves, seen := RunIsChannelRun(w1, actions[1..], w');
      var first := OnChannel(w, actions[0]);
      ActOnChannel(w, actions[0]);
      if first != [] {
        OneMoveMore(w.channel, first[0], moves, w'.channel, seen);
        moves, seen := first + moves, TransferRings.Next(w.channel, first[0]).1 + seen;
      }
    }
  }

  lemma ActOnChannel(w: Wire, a: Action)
    requires MayAct(w, a) && TrbRing.WellFormed(w.channel.ring) && w.channel.pipe.pipe.ring.Valid()
    ensures Act(w, a).channel == ChannelAfter(w.channel, OnChannel(w, a)) && |OnChannel(w, a)| <= 1
  {
    hide After, Asks, ChannelAfter;
  }

  lemma OneMoveMore(c: TransferRings.Channel, m: TransferRings.Move, moves: seq<TransferRings.Move>,
                    c': TransferRings.Channel, seen: seq<Outcome>)
    requires TransferRings.MayMove(c, m) && TrbRing.WellFormed(c.ring) && c.pipe.pipe.ring.Valid()
    requires TransferRings.IsRun(TransferRings.Next(c, m).0, moves, c', seen)
    ensures TransferRings.IsRun(c, [m] + moves, c', TransferRings.Next(c, m).1 + seen)
  {
    hide TransferRings.MayMove, TransferRings.Next;
    var o := TransferRings.Next(c, m).1;
    assert ([m] + moves)[1..] == moves && (o + seen)[|o|..] == seen;
  }

  /** Every run of a device from Address Device on, with any good answers and in any interleaving
      of its handlers' stores with the controller's loads, the burst of up to 15 requests after
      Configure Endpoint included, is a legal run of the word-level transfer ring: at most 30
      TRBs are unread, the controller reads them whole and in order, and the driver sees
      exactly the replies to its own requests. */
  lemma DeviceNeverOverrunsItsRing(base: Address, buffer: Address, actions: seq<Action>, w: Wire)
    returns (moves: seq<TransferRings.Move>, seen: seq<Outcome>)
    requires base % 16 == 0 && IsRun(NewWire(base, buffer), actions, w)
    ensures TransferRings.IsRun(TransferRings.NewChannel(EP0_DCI, base), moves, w.channel, seen)
    ensures seen == Served([], TransferRings.Actions(moves))
    ensures w.channel.ring.consumed <= w.channel.log && w.channel.ring.Unread() <= TrbRing.RING_SIZE - 2
    ensures DeviceRuns.Inv(w.dev) && (w.todo == [] ==> w.channel.pipe == w.dev.pipe)
  {
    hide DeviceRuns.Inv, TransferRings.Inv, TransferRings.IsRun, IsRun;
    NewWireInv(base, buffer);
    moves, seen := RunIsChannelRun(NewWire(base, buffer), actions, w);
    TransferRings.ChannelIsSafe(EP0_DCI, base, moves, w.channel, seen);
  }
}
