/** The negotiation comes to an end: messages that are answered are answered by lighter ones, so the
    links can always be emptied, and then the handshake has succeeded. */
module EncryptProgress {
  import opened Basics
  import opened FeedbackCipher
  import opened TelnetFrames
  import opened EncryptOption
  import opened EncryptSession
  import opened EncryptLockstep
  import opened EncryptRuns

  // ----- what messages weigh -----

  /** More than all the messages together that an end sends on receiving this one. */
  function Weight(m: Message): nat {
    if m.Data? then 1
    else if m.cmd == ENCRYPT_SUPPORT || m.cmd == ENCRYPT_REQSTART then 14
    else if m.cmd == ENCRYPT_IS then 10
    else if m.cmd == ENCRYPT_REPLY then 9
    else if m.cmd == ENCRYPT_ENC_KEYID then 5
    else if m.cmd == ENCRYPT_DEC_KEYID then 4
    else if m.cmd == ENCRYPT_START then 3
    else if m.cmd == ENCRYPT_REQEND then 2
    else 1
  }

  function Load(frames: seq<seq<Octet>>): nat {
    if frames == [] then 0 else Weight(Parse(frames[0])) + Load(frames[1..])
  }

  lemma {:induction false} LoadAppends(a: seq<seq<Octet>>, b: seq<seq<Octet>>)
    ensures Load(a + b) == Load(a) + Load(b)
    decreases |a|
  {
    hide Weight;
    if a == [] {
      assert a + b == b;
    } else {
      assert (a + b)[0] == a[0] && (a + b)[1..] == a[1..] + b;
      LoadAppends(a[1..], b);
    }
  }

  lemma LoadOfOne(frame: seq<Octet>)
    ensures Load([frame]) == Weight(Parse(frame))
  {
    assert [frame][1..] == [];
    assert Load([]) == 0;
  }

  /** The log has grown by frames of this weight at most. */
  predicate Grown(was: seq<seq<Octet>>, now: seq<seq<Octet>>, n: nat) {
    was <= now && Load(now[|was|..]) <= n
  }

  lemma GrownTwice(a: seq<seq<Octet>>, b: seq<seq<Octet>>, c: seq<seq<Octet>>, n: nat, m: nat)
    requires Grown(a, b, n) && Grown(b, c, m)
    ensures Grown(a, c, n + m)
  {
    hide Load;
    assert c[|a|..] == b[|a|..] + c[|b|..];
    LoadAppends(b[|a|..], c[|b|..]);
  }

  lemma GrownNot(a: seq<seq<Octet>>, n: nat)
    ensures Grown(a, a, n)
  {
    assert a[|a|..] == [];
    assert Load([]) == 0;
  }

  lemma WriteGrows(des: BlockCipher, tx: Tx, m: Message)
    ensures Grown(tx.log, Write(des, tx, m).log, Weight(m))
  {
    hide Weight, Load, Write;
    WriteShape(des, tx, m);
    ParseInvertsFrame(m);
    assert (tx.log + [Frame(m)])[|tx.log|..] == [Frame(m)];
    LoadOfOne(Frame(m));
  }

  // ----- what the output direction sends -----

  /** fb64_start sends an IV at most, and then the negotiation is not complete. */
  lemma StartGrows(des: BlockCipher, tx: Tx, k: Kind, feed: Block)
    ensures var (t, state) := Start(des, tx, k, feed);
            && Grown(tx.log, t.log, if state == SUCCESS then 0 else 10)
            && (state == SUCCESS ==> t == tx && tx.Fb(k).state == SUCCESS)
  {
    hide Load, Write, Grown;
    var fb := tx.Fb(k);
    var revived := Revived(fb.state);
    var sent := revived.(noSendIv := false, noRecvIv := true);
    GrownNot(tx.log, 0);
    GrownNot(tx.log, 10);
    WriteGrows(des, tx.With(k, fb.(tempFeed := feed, state := sent)), Sub(ENCRYPT_IS, [TypeOf(k), FB64_IV] + feed));
  }

  lemma StartOutputGrows(des: BlockCipher, tx: Tx, k: Kind, feed: Block)
    ensures var t := StartOutput(des, tx, k, feed);
            Grown(tx.log, t.log, 10) && (tx.Fb(k).state == SUCCESS ==> Grown(tx.log, t.log, 3))
  {
    hide Load, Write, Grown, Start;
    GrownNot(tx.log, 10);
    GrownNot(tx.log, 3);
    if tx.Finds(k) {
      StartGrows(des, tx, k, feed);
      var (t, state) := Start(des, tx, k, feed);
      StartsNoMore(des, tx, k, feed);
      if state == SUCCESS {
        WriteGrows(des, t, Sub(ENCRYPT_START, t.keyid));
        GrownMore(tx.log, Write(des, t, Sub(ENCRYPT_START, t.keyid)).log, 3, 10);
      }
    }
  }

  lemma GrownMore(a: seq<seq<Octet>>, b: seq<seq<Octet>>, n: nat, m: nat)
    requires Grown(a, b, n) && n <= m
    ensures Grown(a, b, m)
  {
  }

  lemma StartsNoMore(des: BlockCipher, tx: Tx, k: Kind, feed: Block)
    ensures tx.Fb(k).state == SUCCESS ==> Start(des, tx, k, feed) == (tx, SUCCESS)
  {
  }

  lemma SupportGrows(des: BlockCipher, tx: Tx, types: seq<Octet>, feed: Block)
    ensures Grown(tx.log, OnSupport(des, tx, types, feed).log, 13)
  {
    hide Load, Write, Grown, Start, StartOutput, Usable;
    GrownNot(tx.log, 13);
    var usable := Usable(tx.kinds, types);
    var t := tx.(peerDecrypts := set k | k in usable);
    if usable != [] && t.Finds(usable[0]) {
      StartGrows(des, t, usable[0], feed);
      var (u, state) := Start(des, t, usable[0], feed);
      if state == SUCCESS {
        StartOutputGrows(des, u.(mode := Some(usable[0])), usable[0], feed);
        GrownMore(tx.log, StartOutput(des, u.(mode := Some(usable[0])), usable[0], feed).log, 3, 13);
      } else {
        GrownMore(tx.log, u.log, 10, 13);
      }
    }
  }

  lemma FbReplyGrows(des: BlockCipher, tx: Tx, k: Kind, data: seq<Octet>)
    ensures var (t, state) := FbReply(des, tx, k, data);
            Grown(tx.log, t.log, 5) && t.Fb(k).state == state
  {
    hide Load, Write, Grown;
    GrownNot(tx.log, 5);
    var fb := tx.Fb(k);
    if data != [] && data[0] == FB64_IV_OK {
      var revived := Revived(fb.state);
      var state := revived.(noRecvIv := false);
      var t := tx.With(k, fb.(stream := Seeded(fb.stream, fb.tempFeed), state := state)).(keyid := KEYID_ZERO);
      WriteGrows(des, t, Sub(ENCRYPT_ENC_KEYID, KEYID_ZERO));
      WriteShape(des, t, Sub(ENCRYPT_ENC_KEYID, KEYID_ZERO));
    }
  }

  lemma ReplyGrows(des: BlockCipher, tx: Tx, data: seq<Octet>, feed: Block)
    ensures Grown(tx.log, OnReply(des, tx, data, feed).log, 8)
  {
    hide Load, Write, Grown, FbReply, StartOutput;
    GrownNot(tx.log, 8);
    if data != [] && KindOf(data[0]).Some? && tx.Finds(KindOf(data[0]).value) {
      var k := KindOf(data[0]).value;
      FbReplyGrows(des, tx, k, data[1..]);
      var (t, state) := FbReply(des, tx, k, data[1..]);
      GrownMore(tx.log, t.log, 5, 8);
      var u := t.(mode := Some(k));
      if state == SUCCESS && u.auto {
        StartOutputGrows(des, u, k, feed);
        GrownTwice(tx.log, u.log, StartOutput(des, u, k, feed).log, 5, 3);
      }
    }
  }

  /** What the peer of an honest end knows when a key id comes back. */
  predicate Expects(tx: Tx, m: Message) {
    m.Sub? && m.cmd == ENCRYPT_DEC_KEYID ==>
      m.payload == KEYID_ZERO && tx.keyid == KEYID_ZERO && tx.mode.Some? && tx.Finds(tx.mode.value)
  }

  lemma DecKeyidGrows(des: BlockCipher, tx: Tx, feed: Block)
    requires tx.keyid == KEYID_ZERO && tx.mode.Some? && tx.Finds(tx.mode.value)
    ensures Grown(tx.log, OnDecKeyid(des, tx, KEYID_ZERO, feed).log, 3)
  {
    hide Load, Write, Grown, StartOutput;
    GrownNot(tx.log, 3);
    var k := tx.mode.value;
    var (state, left) := FbKeyid(tx.Fb(k).state, KEYID_ZERO);
    var t := tx.With(k, tx.Fb(k).(state := state)).(keyid := left);
    StartOutputGrows(des, t, k, feed);
  }

  lemma EndGrows(des: BlockCipher, tx: Tx)
    ensures Grown(tx.log, SendEnd(des, tx).log, 1)
  {
    hide Load, Write, Grown;
    GrownNot(tx.log, 1);
    WriteGrows(des, tx, Sub(ENCRYPT_END, []));
  }

  /** Handling a message on the output direction sends less than the message weighs. */
  lemma OnTxGrows(des: BlockCipher, server: bool, tx: Tx, m: Message, feed: Block)
    requires Expects(tx, m)
    ensures Grown(tx.log, OnTx(des, server, tx, m, feed).log, Weight(m) - 1)
  {
    hide Load, Grown, OnSupport, OnReply, OnDecKeyid, SendEnd, StartOutput;
    GrownNot(tx.log, Weight(m) - 1);
    if m.Sub? {
      if m.cmd == ENCRYPT_SUPPORT {
        SupportGrows(des, tx, m.payload, feed);
      } else if m.cmd == ENCRYPT_REPLY {
        ReplyGrows(des, tx, m.payload, feed);
      } else if m.cmd == ENCRYPT_DEC_KEYID {
        DecKeyidGrows(des, tx, feed);
      } else if m.cmd == ENCRYPT_REQSTART && tx.mode.Some? {
        StartOutputGrows(des, tx, tx.mode.value, feed);
        GrownMore(tx.log, StartOutput(des, tx, tx.mode.value, feed).log, 10, 13);
      } else if m.cmd == ENCRYPT_REQEND {
        EndGrows(des, tx);
      }
    }
  }

  // ----- what the input direction answers -----

  /** The messages that the input direction listens to. */
  predicate ForInput(m: Message) {
    m.Sub? && m.cmd in {ENCRYPT_IS, ENCRYPT_ENC_KEYID, ENCRYPT_START, ENCRYPT_END}
  }

  lemma AnswersAreLighter(rx: Rx, m: Message)
    requires Mild(OnRx(rx, m).1)
    ensures var ms := OnRx(rx, m).1;
            && (ms != [] ==> Weight(ms[0]) < Weight(m))
            && (!ForInput(m) ==> ms == [])
  {
  }

  lemma OutputIgnores(des: BlockCipher, server: bool, tx: Tx, m: Message, feed: Block)
    requires ForInput(m)
    ensures OnTx(des, server, tx, m, feed) == tx
  {
  }

  /** Whatever an honest end hears, it sends less than it hears. */
  lemma HearingLightens(des: BlockCipher, server: bool, tx: Tx, rx: Rx, m: Message, feed: Block)
    requires Mild(OnRx(rx, m).1) && Expects(tx, m)
    ensures Grown(tx.log, OnTx(des, server, WriteAll(des, tx, OnRx(rx, m).1), m, feed).log, Weight(m) - 1)
  {
    hide Load, Grown, OnTx, OnRx, Write, Weight;
    var ms := OnRx(rx, m).1;
    AnswersAreLighter(rx, m);
    WriteAllMild(des, tx, ms, ENCRYPT_IS);
    Heavy(m);
    if ForInput(m) {
      OutputIgnores(des, server, WriteAll(des, tx, ms), m, feed);
      GrownNot(tx.log, Weight(m) - 1);
      if ms != [] {
        WriteGrows(des, tx, ms[0]);
        GrownMore(tx.log, Write(des, tx, ms[0]).log, Weight(ms[0]), Weight(m) - 1);
      }
    } else {
      OnTxGrows(des, server, tx, m, feed);
    }
  }

  lemma Heavy(m: Message)
    ensures Weight(m) > 0
  {
  }

  // ----- the frames in transit -----

  /** The frames the receiver has not read, in clear. */
  function Unread(s: End, r: End): seq<seq<Octet>> {
    if |r.peer.rx.log| <= |s.peer.tx.log| then s.peer.tx.log[|r.peer.rx.log|..] else []
  }

  function Burden(s: End, r: End): nat { Load(Unread(s, r)) + Load(Unread(r, s)) }

  /** The key id that comes back to an honest sender is the one it waits for. */
  lemma KeyidIsExpected(des: BlockCipher, key: Block, s: End, r: End, plain: seq<Octet>)
    requires Direction(des, key, s, r) && s.peer.rx.log + [plain] <= r.peer.tx.log
    ensures Expects(s.peer.tx, Parse(plain))
  {
    hide Drain, Said, InStep;
    var m := Parse(plain);
    if m.Sub? && m.cmd == ENCRYPT_DEC_KEYID {
      HeardOnce(s.peer.rx.log, plain, r.peer.tx.log, ENCRYPT_DEC_KEYID);
      ReadSoFar(des, key, s, r);
      SaidBefore(r.peer.rx.log, s.peer.tx.log, ENCRYPT_ENC_KEYID);
    }
  }

  /** Reading a frame takes its weight off one link, and puts less than that on the other. */
  lemma ReceiveLightens(des: BlockCipher, key: Block, self: End, other: End, feed: Block)
    requires key != ZERO_BLOCK && Direction(des, key, self, other) && Direction(des, key, other, self)
    requires self.keyed && other.peer.tx.wire != []
    ensures var (s, o) := Act(des, key, self, other, Receive(feed));
            Burden(s, o) < Burden(self, other) && s.keyed == self.keyed && o.keyed == other.keyed
  {
    hide Write, Said, Drain, Usable, OnRx, OnTx, Direction, Mild, WriteAll, Read, Load, Weight, Expects, Grown;
    var (r, plain) := Read(des, self.peer.rx, other.peer.tx.wire[0]);
    var m := Parse(plain);
    var tx := OnTx(des, self.peer.server, WriteAll(des, self.peer.tx, OnRx(r, m).1), m, feed);
    var (s, o) := Act(des, key, self, other, Receive(feed));
    NextFrame(des, key, other, self);
    HearingReceive(des, key, self, other);
    KeyidIsExpected(des, key, self, other, plain);
    HearingLightens(des, self.peer.server, self.peer.tx, r, m, feed);
    StepLog(des, self.peer.rx, other.peer.tx.wire[0]);
    ReadSoFar(des, key, self, other);
    assert s.peer.tx == tx && s.peer.rx.log == self.peer.rx.log + [plain] && o.peer.rx == other.peer.rx;
    OneIsRead(other, self, o, s, plain);
    Heavy(m);
    LogGrows(self, other, s, o, Weight(m) - 1);
  }

  lemma OneIsRead(s: End, r: End, s': End, r': End, plain: seq<Octet>)
    requires s'.peer.tx.log == s.peer.tx.log && r'.peer.rx.log == r.peer.rx.log + [plain]
    requires r.peer.rx.log + [plain] <= s.peer.tx.log
    ensures Load(Unread(s, r)) == Weight(Parse(plain)) + Load(Unread(s', r'))
  {
    hide Load, Weight;
    var n := |r.peer.rx.log|;
    assert s.peer.tx.log[n] == (r.peer.rx.log + [plain])[n] == plain;
    assert Unread(s, r) == [plain] + Unread(s', r');
    LoadAppends([plain], Unread(s', r'));
    LoadOfOne(plain);
  }

  lemma LogGrows(s: End, r: End, s': End, r': End, n: nat)
    requires r'.peer.rx.log == r.peer.rx.log && r.peer.rx.log <= s.peer.tx.log
    requires Grown(s.peer.tx.log, s'.peer.tx.log, n)
    ensures Load(Unread(s', r')) <= Load(Unread(s, r)) + n
  {
    hide Load;
    var a, b := s.peer.tx.log, s'.peer.tx.log;
    assert Unread(s', r') == Unread(s, r) + b[|a|..];
    LoadAppends(Unread(s, r), b[|a|..]);
  }

  // ----- main results -----

  predicate AllReceives(events: seq<Event>) {
    forall i :: 0 <= i < |events| ==> events[i].action.Receive?
  }

  predicate Quiescent(sys: System) { sys.left.peer.tx.wire == [] && sys.right.peer.tx.wire == [] }

  lemma {:induction false} RunAppends(des: BlockCipher, key: Block, sys: System, a: seq<Event>, b: seq<Event>)
    ensures Run(des, key, sys, a + b) == Run(des, key, Run(des, key, sys, a), b)
    decreases |b|
  {
    hide Step;
    if b == [] {
      assert a + b == a;
    } else {
      RunAppends(des, key, sys, a, b[..|b| - 1]);
      assert (a + b)[..|a + b| - 1] == a + b[..|b| - 1];
    }
  }

  lemma RunOfOne(des: BlockCipher, key: Block, sys: System, e: Event)
    ensures Run(des, key, sys, [e]) == Step(des, key, sys, e)
  {
    hide Step;
    assert [e][..0] == [];
    assert Run(des, key, sys, []) == sys;
  }

  /** One delivery to the end that has something to read. */
  lemma OneDelivery(des: BlockCipher, key: Block, sys: System) returns (e: Event)
    requires key != ZERO_BLOCK && Inv(des, key, sys) && sys.left.keyed && sys.right.keyed && !Quiescent(sys)
    ensures var t := Step(des, key, sys, e);
            && e.action.Receive? && Inv(des, key, t) && t.left.keyed && t.right.keyed
            && Burden(t.left, t.right) < Burden(sys.left, sys.right)
  {
    hide Act, Direction, Load, Unread;
    var feed := ZERO_BLOCK;
    if sys.right.peer.tx.wire != [] {
      e := Event(true, Receive(feed));
      ReceiveKeeps(des, key, sys.left, sys.right, feed);
      ReceiveLightens(des, key, sys.left, sys.right, feed);
    } else {
      e := Event(false, Receive(feed));
      ReceiveKeeps(des, key, sys.right, sys.left, feed);
      ReceiveLightens(des, key, sys.right, sys.left, feed);
    }
  }

  /** Reading alone empties both links. */
  lemma {:induction false} LinksEmpty(des: BlockCipher, key: Block, sys: System) returns (events: seq<Event>)
    requires key != ZERO_BLOCK && Inv(des, key, sys) && sys.left.keyed && sys.right.keyed
    ensures AllReceives(events) && Quiescent(Run(des, key, sys, events))
    decreases Burden(sys.left, sys.right)
  {
    hide Step, Inv, Run, Burden, Quiescent;
    if Quiescent(sys) {
      assert Run(des, key, sys, []) == sys by { RunOfNone(des, key, sys); }
      return [];
    }
    var e := OneDelivery(des, key, sys);
    var more := LinksEmpty(des, key, Step(des, key, sys, e));
    RunOfOne(des, key, sys, e);
    RunAppends(des, key, sys, [e], more);
    events := [e] + more;
  }

  lemma RunOfNone(des: BlockCipher, key: Block, sys: System)
    ensures Run(des, key, sys, []) == sys
  {
  }

  /** The handshake cannot get stuck.  After any run that has given both ends the key, if the two ends
      do nothing but read, they come to a state with nothing in transit, and in each direction in which
      the receiver has offered a method that suits the sender, encryption is ready to go. */
  lemma HandshakeCannotGetStuck(des: BlockCipher, key: Block, sys: System, events: seq<Event>)
    returns (more: seq<Event>)
    requires key != ZERO_BLOCK && Fresh(sys.left) && Fresh(sys.right)
    requires var now := Run(des, key, sys, events); now.left.keyed && now.right.keyed
    ensures AllReceives(more)
    ensures var end := Run(des, key, sys, events + more);
            Quiescent(end) && Settled(end.left, end.right) && Settled(end.right, end.left)
  {
    hide Run, Inv, Settled, Quiescent, AllReceives;
    RunKeeps(des, key, sys, events);
    more := LinksEmpty(des, key, Run(des, key, sys, events));
    RunAppends(des, key, sys, events, more);
    HandshakeCompletes(des, key, sys, events + more);
  }
}
