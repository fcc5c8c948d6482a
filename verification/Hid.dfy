/** The HID class drivers: endpoints, the boot protocol, and what a keyboard reports. */
module HidDrivers {
  import opened ArrayMaps
  import opened ControlPipes
  import opened Descriptors
  import opened Errors
  import opened Trbs
  import opened UsbDevices

  const HID_BUFFER_SIZE := 1024
  const KEYBOARD_PACKET := 8

  /** The keys of positions `i` to 7 of a report that are notified, in order: not zero and
      nowhere in the previous buffer. */
  function Notified(buf: seq<Byte>, previous: seq<Byte>, i: nat): seq<Byte>
    requires |buf| >= KEYBOARD_PACKET && i <= KEYBOARD_PACKET
    decreases KEYBOARD_PACKET - i
  {
    if i == KEYBOARD_PACKET then []
    else (if buf[i] != 0 && buf[i] !in previous then [buf[i]] else []) + Notified(buf, previous, i + 1)
  }

  lemma {:induction false} NotifiedMeans(buf: seq<Byte>, previous: seq<Byte>, i: nat, key: Byte)
    requires |buf| >= KEYBOARD_PACKET && i <= KEYBOARD_PACKET
    ensures key in Notified(buf, previous, i) <==> key != 0 && key in buf[i..KEYBOARD_PACKET] && key !in previous
    decreases KEYBOARD_PACKET - i
  {
    if i < KEYBOARD_PACKET {
      NotifiedMeans(buf, previous, i + 1, key);
      assert buf[i..KEYBOARD_PACKET] == [buf[i]] + buf[i + 1..KEYBOARD_PACKET];
    }
  }

  lemma NotifiedStep(buf: seq<Byte>, previous: seq<Byte>, i: nat)
    requires |buf| >= KEYBOARD_PACKET && i <= KEYBOARD_PACKET
    ensures i == KEYBOARD_PACKET ==> Notified(buf, previous, i) == []
    ensures i < KEYBOARD_PACKET ==>
              Notified(buf, previous, i) == if buf[i] != 0 && buf[i] !in previous then [buf[i]] + Notified(buf, previous, i + 1)
                                            else Notified(buf, previous, i + 1)
  {
    if i < KEYBOARD_PACKET {
      var rest := Notified(buf, previous, i + 1);
      assert [] + rest == rest;
    }
  }

  lemma OneKeyMore(buf: seq<Byte>, previous: seq<Byte>, i: nat, notified: seq<Byte>)
    requires |buf| >= KEYBOARD_PACKET && i < KEYBOARD_PACKET
    ensures var more := if buf[i] != 0 && buf[i] !in previous then notified + [buf[i]] else notified;
            notified + Notified(buf, previous, i) == more + Notified(buf, previous, i + 1)
  {
    NotifiedStep(buf, previous, i);
    hide Notified;
  }

  /** A report in the driver's 1024-byte buffer. */
  function Padded(report: seq<Byte>): seq<Byte>
    requires |report| <= HID_BUFFER_SIZE
  {
    report + seq(HID_BUFFER_SIZE - |report|, i => 0)
  }

  predicate FullReports(reports: seq<seq<Byte>>) {
    forall i :: 0 <= i < |reports| ==> |reports[i]| == KEYBOARD_PACKET
  }

  /** What the buffers hold after a run of reports: the last one. */
  function LastReport(reports: seq<seq<Byte>>): (r: seq<Byte>)
    requires FullReports(reports)
    ensures |r| == HID_BUFFER_SIZE
  {
    if reports == [] then Padded([]) else Padded(reports[|reports| - 1])
  }

  /** A report that follows `reports` notifies a key exactly when the key is in one of its
      six key positions and absent from the whole of the report before. In particular a key
      that is held is not notified again. */
  lemma KeyNotifiedExactlyWhenNew(reports: seq<seq<Byte>>, report: seq<Byte>, key: Byte)
    requires FullReports(reports) && |report| == KEYBOARD_PACKET
    ensures key in Notified(Padded(report), LastReport(reports), 2) <==>
              && key != 0 && key in report[2..]
              && (reports != [] ==> key !in reports[|reports| - 1])
  {
    NotifiedMeans(Padded(report), LastReport(reports), 2, key);
    assert Padded(report)[2..KEYBOARD_PACKET] == report[2..];
    var before := if reports == [] then [] else reports[|reports| - 1];
    assert LastReport(reports) == Padded(before);
    PaddedHas(before, key);
  }

  lemma PaddedHas(report: seq<Byte>, key: Byte)
    requires |report| <= HID_BUFFER_SIZE
    ensures key != 0 ==> (key in Padded(report) <==> key in report)
  {
  }

  /** The whole report takes part, modifier byte included: usage 4 pressed right after a
      report whose modifier byte was 4 goes unnoticed, although no key was down before. */
  lemma ModifierHidesKey()
    ensures var before, report := [4, 0, 0, 0, 0, 0, 0, 0], [0, 0, 4, 0, 0, 0, 0, 0];
            4 in report[2..] && 4 !in before[2..] && 4 !in Notified(Padded(report), LastReport([before]), 2)
  {
    var before, report := [4, 0, 0, 0, 0, 0, 0, 0], [0, 0, 4, 0, 0, 0, 0, 0];
    assert report[2] == 4 && before[0] == 4;
    assert report[2..][0] == 4;
    KeyNotifiedExactlyWhenNew([before], report, 4);
  }

  /** The driver as its completions see it. */
  datatype Hid = Hid(phase: nat, epIn: int, epOut: int, buf: seq<Byte>, previous: seq<Byte>)

  function EndpointId(c: EndpointConfig): int { 2 * c.number + if c.isIn then 1 else 0 }

  /** The interrupt-in endpoint that a class driver is left with when it is handed these, one after
      the other: 0 is none. */
  function PollEndpoint(configs: seq<EndpointConfig>): int {
    if configs == [] then 0
    else
      var c := configs[|configs| - 1];
      if c.kind == INTERRUPT && c.isIn then EndpointId(c) else PollEndpoint(configs[..|configs| - 1])
  }

  /** The last of the interrupt-in endpoints, by number and direction, or none. */
  lemma {:induction false} PollEndpointMeans(configs: seq<EndpointConfig>) returns (i: int)
    ensures -1 <= i < |configs|
    ensures forall j :: i < j < |configs| ==> !(configs[j].kind == 3 && configs[j].isIn)
    ensures i >= 0 ==> configs[i].kind == 3 && configs[i].isIn && PollEndpoint(configs) == 2 * configs[i].number + 1
    ensures i < 0 ==> PollEndpoint(configs) == 0
  {
    var n := |configs| - 1;
    if n < 0 { i := -1; }
    else if configs[n].kind == INTERRUPT && configs[n].isIn { i := n; }
    else {
      i := PollEndpointMeans(configs[..n]);
      assert forall j :: 0 <= j < n ==> configs[..n][j] == configs[j];
    }
  }

  class HidDriver {
    const self: ClassDriver
    const inPacketSize: Length
    const bufferAt: Address      // where `buf` lies
    var epInterruptIn: int
    var epInterruptOut: int
    var initializePhase: nat
    const buf: array<Byte>
    const previousBuf: array<Byte>

    ghost predicate Valid()
      reads this
    {
      && buf.Length == HID_BUFFER_SIZE && previousBuf.Length == HID_BUFFER_SIZE && buf != previousBuf
      && inPacketSize == if self.kind == Keyboard then KEYBOARD_PACKET else 3
    }

    /** What an interrupt-in transfer of this driver fills. */
    function Report(): Buffer { Buffer(bufferAt, inPacketSize) }

    ghost function View(): Hid
      requires Valid()
      reads this, buf, previousBuf
    {
      Hid(initializePhase, epInterruptIn, epInterruptOut, buf[..], previousBuf[..])
    }

    constructor (self: ClassDriver, at: Address)
      ensures Valid() && this.self == self && bufferAt == at && fresh(buf) && fresh(previousBuf)
      ensures View() == Hid(0, 0, 0, LastReport([]), LastReport([]))
    {
      this.self, bufferAt := self, at;
      inPacketSize := if self.kind == Keyboard then KEYBOARD_PACKET else 3;
      epInterruptIn, epInterruptOut, initializePhase := 0, 0, 0;
      buf := new Byte[HID_BUFFER_SIZE](i => 0);
      previousBuf := new Byte[HID_BUFFER_SIZE](i => 0);
      new;
      assert buf[..] == Padded([]);
      assert previousBuf[..] == Padded([]);
    }

    method SetEndpoint(config: EndpointConfig) returns (err: Error)
      requires Valid()
      modifies this`epInterruptIn, this`epInterruptOut
      ensures Valid() && err == Success
      ensures View() == if config.kind != INTERRUPT then old(View())
                        else if config.isIn then old(View()).(epIn := EndpointId(config))
                        else old(View()).(epOut := EndpointId(config))
    {
      if config.kind == INTERRUPT && config.isIn {
        epInterruptIn := EndpointId(config);
      } else if config.kind == INTERRUPT && !config.isIn {
        epInterruptOut := EndpointId(config);
      }
      return Success;
    }

    method OnEndpointsConfigured() returns (req: Request)
      requires Valid()
      modifies this`initializePhase
      ensures Valid() && View() == old(View()).(phase := 1) && req == SetProtocolRequest(self)
    {
      initializePhase := 1;
      req := SetProtocolRequest(self);
    }

    /** `issue` is the interrupt transfer that is started, if any. */
    method OnControlCompleted() returns (err: Error, issue: Option<Buffer>)
      requires Valid()
      modifies this`initializePhase
      ensures Valid()
      ensures issue == if old(View()).phase == 1 then Some(Report()) else None
      ensures err == if issue.Some? then Success else NotImplemented
      ensures View() == if issue.Some? then old(View()).(phase := 2) else old(View())
    {
      if initializePhase == 1 {
        initializePhase := 2;
        return Success, Some(Report());
      }
      return NotImplemented, None;
    }

    /** The keyboard's reaction to a report: one notification per newly pressed key. */
    method OnDataReceived() returns (notified: seq<Byte>)
      requires Valid()
      ensures notified == Notified(buf[..], previousBuf[..], 2)
    {
      hide Notified;
      ghost var b, p := buf[..], previousBuf[..];
      notified := [];
      var i := 2;
      while i < KEYBOARD_PACKET
        invariant 2 <= i <= KEYBOARD_PACKET
        invariant Notified(b, p, 2) == notified + Notified(b, p, i)
      {
        OneKeyMore(b, p, i, notified);
        var key := buf[i];
        if key != 0 && key !in previousBuf[..] {
          notified := notified + [key];
        }
        i := i + 1;
      }
      NotifiedStep(b, p, i);
    }

    /** An interrupt transfer of `len` bytes into `buf` has completed. The source copies
        without checking `len` against the buffer. */
    method OnInterruptCompleted(isIn: bool, len: nat) returns (err: Error, notified: seq<Byte>, issue: Option<Buffer>)
      requires Valid() && len <= HID_BUFFER_SIZE
      modifies previousBuf
      ensures Valid()
      ensures issue == if isIn then Some(Report()) else None
      ensures !isIn ==> err == NotImplemented && notified == [] && View() == old(View())
      ensures isIn ==>
                && err == Success
                && notified == (if self.kind == Keyboard then old(Notified(buf[..], previousBuf[..], 2)) else [])
                && View() == old(View()).(previous := buf[..len] + old(previousBuf[len..]))
    {
      if !isIn {
        return NotImplemented, [], None;
      }
      notified := [];
      if self.kind == Keyboard {
        notified := OnDataReceived();
      }
      forall i | 0 <= i < len { previousBuf[i] := buf[i]; }
      assert previousBuf[..] == buf[..len] + old(previousBuf[len..]);
      return Success, notified, Some(Report());
    }
  }

  /** One full keyboard report: the controller stores it at the start of `buf` while the
      transfer is in flight, then the completion handler runs. */
  function OneReport(h: Hid, report: seq<Byte>): (Hid, seq<Byte>)
    requires |report| == KEYBOARD_PACKET && |h.buf| == |h.previous| == HID_BUFFER_SIZE
  {
    var buf := report + h.buf[KEYBOARD_PACKET..];
    (h.(buf := buf, previous := buf[..KEYBOARD_PACKET] + h.previous[KEYBOARD_PACKET..]),
     Notified(buf, h.previous, 2))
  }

  /** A run of full reports, oldest first, with what each one notified. */
  function ReportRun(h: Hid, reports: seq<seq<Byte>>): (r: (Hid, seq<seq<Byte>>))
    requires FullReports(reports) && |h.buf| == |h.previous| == HID_BUFFER_SIZE
    ensures |r.0.buf| == |r.0.previous| == HID_BUFFER_SIZE && |r.1| == |reports|
  {
    if reports == [] then (h, [])
    else
      var (h1, log) := ReportRun(h, reports[..|reports| - 1]);
      var (h2, keys) := OneReport(h1, reports[|reports| - 1]);
      (h2, log + [keys])
  }

  /** The notification rule for report `i` of a run. */
  ghost predicate NotifiesNewKeys(reports: seq<seq<Byte>>, i: nat, keys: seq<Byte>)
    requires i < |reports| && FullReports(reports)
  {
    forall key: Byte ::
      key in keys <==> key != 0 && key in reports[i][2..] && (i > 0 ==> key !in reports[i - 1])
  }

  lemma OneReportNotifiesNewKeys(reports: seq<seq<Byte>>, h: Hid)
    requires reports != [] && FullReports(reports)
    requires h.buf == h.previous == LastReport(reports[..|reports| - 1])
    ensures var (h', keys) := OneReport(h, reports[|reports| - 1]);
            && h'.buf == h'.previous == LastReport(reports)
            && NotifiesNewKeys(reports, |reports| - 1, keys)
  {
    var n := |reports| - 1;
    var (rest, last) := (reports[..n], reports[n]);
    assert last + LastReport(rest)[KEYBOARD_PACKET..] == LastReport(reports);
    assert LastReport(reports)[..KEYBOARD_PACKET] + LastReport(rest)[KEYBOARD_PACKET..] == LastReport(reports);
    forall key: Byte
      ensures key in OneReport(h, last).1 <==>
              key != 0 && key in last[2..] && (n > 0 ==> key !in reports[n - 1])
    {
      KeyNotifiedExactlyWhenNew(rest, last, key);
    }
  }

  /** After any run of full reports both buffers hold the last report, zero padded, and
      every report notified exactly the keys that were absent from the report before. */
  lemma {:induction false} ReportRunNotifiesNewKeys(h: Hid, reports: seq<seq<Byte>>)
    requires FullReports(reports) && h.buf == h.previous == LastReport([])
    ensures var (h', log) := ReportRun(h, reports);
            && h'.buf == h'.previous == LastReport(reports)
            && forall i :: 0 <= i < |reports| ==> NotifiesNewKeys(reports, i, log[i])
  {
    hide OneReport, LastReport, NotifiesNewKeys;
    if reports != [] {
      var n := |reports| - 1;
      var rest := reports[..n];
      ReportRunNotifiesNewKeys(h, rest);
      var (h1, log) := ReportRun(h, rest);
      OneReportNotifiesNewKeys(reports, h1);
      forall i | 0 <= i < n ensures NotifiesNewKeys(reports, i, log[i]) {
        PrefixNotifies(reports, i, log[i]);
      }
    }
  }

  lemma PrefixNotifies(reports: seq<seq<Byte>>, i: nat, keys: seq<Byte>)
    requires FullReports(reports) && i < |reports| - 1
    requires NotifiesNewKeys(reports[..|reports| - 1], i, keys)
    ensures NotifiesNewKeys(reports, i, keys)
  {
  }
}
