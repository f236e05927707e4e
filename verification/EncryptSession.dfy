/** Two ends of a Telnet connection that both run the ENCRYPT option of libtelnet, joined by two
    first-in first-out links: their actions, their runs, and what has been said on either link. */
module EncryptSession {
  import opened Basics
  import opened FeedbackCipher
  import opened TelnetFrames
  import opened EncryptOption

  // ----- the system: any schedule of local events and deliveries -----

  /** `keyed` says that the session key has been installed at this end. */
  datatype End = End(peer: Peer, keyed: bool)

  datatype Action =
    | Support
    | InstallKey(feedCfb: Block, feedOfb: Block)
    | Receive(feed: Block)
    | Put(bytes: seq<Octet>)
    | StartOut(feed: Block)
    | StopOut
    | AskStart
    | AskEnd

  datatype Event = Event(left: bool, action: Action)

  datatype System = System(left: End, right: End)

  predicate IsStart(des: BlockCipher, rx: Rx, frame: seq<Octet>) {
    var m := Parse(Read(des, rx, frame).1);
    m.Sub? && m.cmd == ENCRYPT_START
  }

  /** What `self` does; a START is not taken off the link before the session key is there. */
  function Act(des: BlockCipher, key: Block, self: End, other: End, act: Action): (End, End) {
    var p := self.peer;
    match act
    case Support => (self.(peer := SendSupport(des, p)), other)
    case InstallKey(f, g) =>
      if self.keyed then (self, other) else (End(SessionKey(des, p, key, f, g), true), other)
    case Receive(feed) =>
      var wire := other.peer.tx.wire;
      if wire == [] || (!self.keyed && IsStart(des, p.rx, wire[0])) then (self, other)
      else (self.(peer := Deliver(des, p, wire[0], feed)),
            other.(peer := other.peer.(tx := other.peer.tx.(wire := wire[1..]))))
    case Put(bytes) => (self.(peer := p.(tx := Write(des, p.tx, Data(bytes)))), other)
    case StartOut(feed) => (self.(peer := UserStart(des, p, feed)), other)
    case StopOut => (self.(peer := p.(tx := SendEnd(des, p.tx))), other)
    case AskStart =>
      if p.rx.mode.None? then (self, other)
      else (self.(peer := p.(tx := Write(des, p.tx, Sub(ENCRYPT_REQSTART, p.rx.keyid)))), other)
    case AskEnd => (self.(peer := p.(tx := Write(des, p.tx, Sub(ENCRYPT_REQEND, [])))), other)
  }

  function Step(des: BlockCipher, key: Block, sys: System, e: Event): System {
    if e.left then
      var (l, r) := Act(des, key, sys.left, sys.right, e.action); System(l, r)
    else
      var (r, l) := Act(des, key, sys.right, sys.left, e.action); System(l, r)
  }

  function Run(des: BlockCipher, key: Block, sys: System, events: seq<Event>): System
    decreases |events|
  {
    if events == [] then sys
    else Step(des, key, Run(des, key, sys, events[..|events| - 1]), events[|events| - 1])
  }

  /** Each end starts from encrypt_init with its own table of methods and its own flags. */
  predicate Fresh(e: End) {
    && !e.keyed
    && e.peer == Initial(e.peer.server, e.peer.tx.kinds, e.peer.rx.kinds, e.peer.tx.auto, e.peer.rx.auto)
  }

  // ----- what has been said on a direction -----

  function Said(log: seq<seq<Octet>>, cmd: Octet): seq<seq<Octet>>
    decreases |log|
  {
    if log == [] then [] else
      var n := |log| - 1;
      var m := Parse(log[n]);
      Said(log[..n], cmd) + if m.Sub? && m.cmd == cmd then [m.payload] else []
  }

  function SaidBy(m: Message, cmd: Octet): seq<seq<Octet>> {
    if m.Sub? && m.cmd == cmd then [m.payload] else []
  }

  lemma SaidAppend(log: seq<seq<Octet>>, plain: seq<Octet>, cmd: Octet)
    ensures Said(log + [plain], cmd) == Said(log, cmd) + SaidBy(Parse(plain), cmd)
  {
    assert (log + [plain])[..|log + [plain]| - 1] == log;
  }

  lemma {:induction false} SaidPrefix(a: seq<seq<Octet>>, b: seq<seq<Octet>>, cmd: Octet)
    requires a <= b
    ensures Said(a, cmd) <= Said(b, cmd)
    decreases |b|
  {
    if |a| == |b| {
      assert a == b;
    } else {
      SaidPrefix(a, b[..|b| - 1], cmd);
    }
  }

  lemma SaidWrite(des: BlockCipher, tx: Tx, m: Message, cmd: Octet)
    ensures Said(Write(des, tx, m).log, cmd) == Said(tx.log, cmd) + SaidBy(m, cmd)
  {
    ParseInvertsFrame(m);
    SaidAppend(tx.log, Frame(m), cmd);
  }

  // ----- frames in transit, seen from the receiver -----

  /** The receiver once it has read everything in transit. */
  function Drain(des: BlockCipher, rx: Rx, wire: seq<seq<Octet>>): Rx
    decreases |wire|
  {
    if wire == [] then rx else Drain(des, RxStep(des, rx, wire[0]), wire[1..])
  }

  lemma {:induction false} DrainAppend(des: BlockCipher, rx: Rx, wire: seq<seq<Octet>>, frame: seq<Octet>)
    ensures Drain(des, rx, wire + [frame]) == RxStep(des, Drain(des, rx, wire), frame)
    decreases |wire|
  {
    if wire == [] {
      assert wire + [frame] == [frame];
    } else {
      DrainAppend(des, RxStep(des, rx, wire[0]), wire[1..], frame);
      assert (wire + [frame])[1..] == wire[1..] + [frame];
    }
  }

  lemma OnRxKeepsLog(rx: Rx, m: Message)
    ensures OnRx(rx, m).0.log == rx.log && OnRx(rx, m).0.kinds == rx.kinds
  {
    if m.Sub? && m.cmd == ENCRYPT_IS && m.payload != [] {
      var k := KindOf(m.payload[0]);
    } else if m.Sub? && m.cmd == ENCRYPT_ENC_KEYID {
      var id := Clipped(m.payload);
    }
  }

  lemma StepLog(des: BlockCipher, rx: Rx, frame: seq<Octet>)
    ensures RxStep(des, rx, frame).log == rx.log + [Read(des, rx, frame).1]
    ensures RxStep(des, rx, frame).kinds == rx.kinds
  {
    var (r, plain) := Read(des, rx, frame);
    OnRxKeepsLog(r, Parse(plain));
  }

  lemma {:induction false} DrainLog(des: BlockCipher, rx: Rx, wire: seq<seq<Octet>>)
    ensures rx.log <= Drain(des, rx, wire).log
    ensures |Drain(des, rx, wire).log| == |rx.log| + |wire|
    decreases |wire|
  {
    if wire != [] {
      StepLog(des, rx, wire[0]);
      DrainLog(des, RxStep(des, rx, wire[0]), wire[1..]);
    }
  }

  lemma KeyCommutesIs(rx: Rx, key: Block, data: seq<Octet>)
    ensures OnIs(KeyedIn(rx, key), data) == (KeyedIn(OnIs(rx, data).0, key), OnIs(rx, data).1)
  {
    if data != [] {
      match KindOf(data[0])
      case None =>
      case Some(k) =>
        var r := rx.(peerEncrypts := rx.peerEncrypts + {k});
        assert KeyedIn(rx, key).(peerEncrypts := rx.peerEncrypts + {k}) == KeyedIn(r, key);
        var (fb, verdict) := FbIs(r.Fb(k), data[1..]);
        assert FbIs(KeyedIn(r, key).Fb(k), data[1..]) == (fb.(stream := Rekeyed(fb.stream, key)), verdict);
        assert KeyedIn(r, key).With(k, fb.(stream := Rekeyed(fb.stream, key))) == KeyedIn(r.With(k, fb), key);
    }
  }

  lemma KeyCommutesKeyid(rx: Rx, key: Block, data: seq<Octet>)
    ensures OnEncKeyid(KeyedIn(rx, key), data) == (KeyedIn(OnEncKeyid(rx, data).0, key), OnEncKeyid(rx, data).1)
  {
  }

  /** A receiver without the key may read anything but a START: the key can come afterwards. */
  lemma KeyCommutes(des: BlockCipher, rx: Rx, key: Block, frame: seq<Octet>)
    requires rx.input.None? && !IsStart(des, rx, frame)
    ensures RxStep(des, KeyedIn(rx, key), frame) == KeyedIn(RxStep(des, rx, frame), key)
    ensures RxStep(des, rx, frame).input.None?
    ensures Read(des, KeyedIn(rx, key), frame).1 == Read(des, rx, frame).1
  {
    var r := rx.(log := rx.log + [frame]);
    var m := Parse(frame);
    assert Read(des, KeyedIn(rx, key), frame) == (KeyedIn(r, key), frame);
    if m.Sub? {
      KeyCommutesIs(r, key, m.payload);
      KeyCommutesKeyid(r, key, m.payload);
      assert OnRx(KeyedIn(r, key), m).0 == KeyedIn(OnRx(r, m).0, key);
    }
  }
}
