/** Every run of two honest ends: the invariant of both directions, and what follows from it.  The
    main result is that every octet read is the octet written. */
module EncryptRuns {
  import opened Basics
  import opened FeedbackCipher
  import opened TelnetFrames
  import opened EncryptOption
  import opened EncryptSession
  import opened EncryptLockstep

  /** The receiver as it will be once the session key is installed. */
  function WithKey(e: End, key: Block): Rx {
    if e.keyed then e.peer.rx else KeyedIn(e.peer.rx, key)
  }

  /** What the receiving end has said and heard, for a direction that settled on method k. */
  predicate Hearing(k: Option<Kind>, e: End) {
    var tx, rx := e.peer.tx, e.peer.rx;
    && Said(tx.log, ENCRYPT_SUPPORT) == (if e.peer.supportSent then [Types(rx.kinds)] else [])
    && (if Said(rx.log, ENCRYPT_IS) == [] then
          rx.mode.None? && Said(tx.log, ENCRYPT_REPLY) == []
        else
          && k.Some? && rx.mode == k && rx.Finds(k.value)
          && Said(tx.log, ENCRYPT_REPLY) == [[TypeOf(k.value), FB64_IV_OK]])
    && Said(tx.log, ENCRYPT_DEC_KEYID) == (if Said(rx.log, ENCRYPT_ENC_KEYID) == [] then [] else [KEYID_ZERO])
    && (Said(rx.log, ENCRYPT_ENC_KEYID) == [] ==> rx.keyid == [])
    && (!e.keyed ==> rx.input.None?)
  }

  predicate Direction(des: BlockCipher, key: Block, s: End, r: End) {
    && Sending(des, key, s.keyed, r.peer.rx.kinds, s.peer.tx, s.peer.rx.log, WithKey(r, key))
    && Hearing(Chosen(s.peer.tx.kinds, r.peer.rx.kinds), r)
  }

  predicate Inv(des: BlockCipher, key: Block, sys: System) {
    Direction(des, key, sys.left, sys.right) && Direction(des, key, sys.right, sys.left)
  }

  // ----- the next frame on a link -----

  lemma ReadSoFar(des: BlockCipher, key: Block, s: End, r: End)
    requires Direction(des, key, s, r)
    ensures r.peer.rx.log <= s.peer.tx.log
    ensures |s.peer.tx.log| == |r.peer.rx.log| + |s.peer.tx.wire|
  {
    DrainLog(des, WithKey(r, key), s.peer.tx.wire);
  }

  lemma NextFrame(des: BlockCipher, key: Block, s: End, r: End)
    requires Direction(des, key, s, r) && s.peer.tx.wire != []
    requires r.keyed || !IsStart(des, r.peer.rx, s.peer.tx.wire[0])
    ensures var wire := s.peer.tx.wire;
            var rx := RxStep(des, r.peer.rx, wire[0]);
            var after := r.(peer := r.peer.(rx := rx));
            && r.peer.rx.log + [Read(des, r.peer.rx, wire[0]).1] <= s.peer.tx.log
            && Drain(des, WithKey(after, key), wire[1..]) == Drain(des, WithKey(r, key), wire)
            && (!r.keyed ==> rx.input.None?)
  {
    var wire := s.peer.tx.wire;
    var rx := r.peer.rx;
    if !r.keyed {
      KeyCommutes(des, rx, key, wire[0]);
    }
    StepLog(des, WithKey(r, key), wire[0]);
    DrainLog(des, RxStep(des, WithKey(r, key), wire[0]), wire[1..]);
  }

  /** A message that is said at most once is new, and is the one that was said. */
  lemma HeardOnce(log: seq<seq<Octet>>, plain: seq<Octet>, sent: seq<seq<Octet>>, cmd: Octet)
    requires log + [plain] <= sent && |Said(sent, cmd)| <= 1
    requires Parse(plain).Sub? && Parse(plain).cmd == cmd
    ensures Said(log, cmd) == [] && Said(sent, cmd) == [Parse(plain).payload]
  {
    SaidAppend(log, plain, cmd);
    SaidPrefix(log + [plain], sent, cmd);
  }

  lemma SaidBefore(log: seq<seq<Octet>>, sent: seq<seq<Octet>>, cmd: Octet)
    requires log <= sent && Said(log, cmd) != []
    ensures Said(sent, cmd) != []
  {
    SaidPrefix(log, sent, cmd);
  }

  // ----- what the receiver answers -----

  lemma AnswersIv(rx: Rx, k: Kind, iv: Block)
    requires k in rx.kinds && rx.mode.None?
    ensures var (r, replies) := OnIs(rx, IvPayload(k, iv));
            && replies == [Sub(ENCRYPT_REPLY, [TypeOf(k), FB64_IV_OK])]
            && r.mode == Some(k) && r.Finds(k) && r.keyid == rx.keyid && r.input == rx.input
            && r.log == rx.log && r.kinds == rx.kinds
  {
    var payload := IvPayload(k, iv);
    assert payload[1..][1..] == iv && |payload[1..]| == 1 + BLOCK_SIZE && payload[1] == FB64_IV;
    assert KindOf(payload[0]) == Some(k);
  }

  lemma AnswersKeyid(rx: Rx)
    requires rx.mode.Some? && rx.Finds(rx.mode.value) && rx.keyid == []
    ensures var (r, replies) := OnEncKeyid(rx, KEYID_ZERO);
            && replies == [Sub(ENCRYPT_DEC_KEYID, KEYID_ZERO)]
            && r.mode == rx.mode && r.Finds(r.mode.value) && r.input == rx.input
            && r.log == rx.log && r.kinds == rx.kinds
  {
  }

  /** What a sender has said on the input direction of another end. */
  ghost predicate Sane(k: Option<Kind>, kinds: seq<Kind>, sent: seq<seq<Octet>>) {
    && (Said(sent, ENCRYPT_IS) == [] ||
        (k.Some? && k.value in kinds && exists iv: Block :: Said(sent, ENCRYPT_IS) == [IvPayload(k.value, iv)]))
    && (Said(sent, ENCRYPT_ENC_KEYID) == [] || Said(sent, ENCRYPT_ENC_KEYID) == [KEYID_ZERO])
  }

  lemma SenderIsSane(des: BlockCipher, key: Block, s: End, r: End)
    requires Direction(des, key, s, r)
    ensures Sane(Chosen(s.peer.tx.kinds, r.peer.rx.kinds), r.peer.rx.kinds, s.peer.tx.log)
  {
    ChosenIsShared(s.peer.tx.kinds, r.peer.rx.kinds);
  }

  function Heard(e: End, r: Rx, m: Message, des: BlockCipher): End {
    e.(peer := e.peer.(rx := OnRx(r, m).0, tx := WriteAll(des, e.peer.tx, OnRx(r, m).1)))
  }

  predicate Mild(ms: seq<Message>) {
    ms == [] ||
    (|ms| == 1 && ms[0].Sub? && ms[0].cmd in {ENCRYPT_REPLY, ENCRYPT_DEC_KEYID, ENCRYPT_REQEND})
  }

  lemma WriteAllMild(des: BlockCipher, tx: Tx, ms: seq<Message>, cmd: Octet)
    requires Mild(ms)
    ensures WriteAll(des, tx, ms) == if ms == [] then tx else Write(des, tx, ms[0])
    ensures Said(WriteAll(des, tx, ms).log, cmd) == Said(tx.log, cmd) + if ms == [] then [] else SaidBy(ms[0], cmd)
  {
    if ms != [] {
      var t := Write(des, tx, ms[0]);
      assert ms[1..] == [];
      assert WriteAll(des, t, []) == t;
      SaidWrite(des, tx, ms[0], cmd);
    }
  }

  lemma HearingOther(des: BlockCipher, k: Option<Kind>, e: End, r: Rx, plain: seq<Octet>)
    requires Hearing(k, e) && r == e.peer.rx.(log := e.peer.rx.log + [plain], cfb := r.cfb, ofb := r.ofb)
    requires var m := Parse(plain);
             m.Data? || (m.cmd != ENCRYPT_IS && m.cmd != ENCRYPT_ENC_KEYID && (e.keyed || m.cmd != ENCRYPT_START))
    ensures Hearing(k, Heard(e, r, Parse(plain), des)) && Mild(OnRx(r, Parse(plain)).1)
  {
    hide Write, Said;
    var m := Parse(plain);
    SaidAppend(e.peer.rx.log, plain, ENCRYPT_IS);
    SaidAppend(e.peer.rx.log, plain, ENCRYPT_ENC_KEYID);
    var ms := OnRx(r, m).1;
    WriteAllMild(des, e.peer.tx, ms, ENCRYPT_SUPPORT);
    WriteAllMild(des, e.peer.tx, ms, ENCRYPT_REPLY);
    WriteAllMild(des, e.peer.tx, ms, ENCRYPT_DEC_KEYID);
  }

  lemma HearingIv(des: BlockCipher, k: Option<Kind>, e: End, r: Rx, plain: seq<Octet>, sent: seq<seq<Octet>>)
    requires Hearing(k, e) && r == e.peer.rx.(log := e.peer.rx.log + [plain], cfb := r.cfb, ofb := r.ofb)
    requires r.log <= sent && Sane(k, r.kinds, sent) && Parse(plain).Sub? && Parse(plain).cmd == ENCRYPT_IS
    ensures Hearing(k, Heard(e, r, Parse(plain), des)) && Mild(OnRx(r, Parse(plain)).1)
  {
    hide Write, Said, OnIs;
    var m := Parse(plain);
    HeardOnce(e.peer.rx.log, plain, sent, ENCRYPT_IS);
    SaidAppend(e.peer.rx.log, plain, ENCRYPT_IS);
    SaidAppend(e.peer.rx.log, plain, ENCRYPT_ENC_KEYID);
    var iv: Block :| Said(sent, ENCRYPT_IS) == [IvPayload(k.value, iv)];
    AnswersIv(r, k.value, iv);
    var ms := OnRx(r, m).1;
    WriteAllMild(des, e.peer.tx, ms, ENCRYPT_SUPPORT);
    WriteAllMild(des, e.peer.tx, ms, ENCRYPT_REPLY);
    WriteAllMild(des, e.peer.tx, ms, ENCRYPT_DEC_KEYID);
  }

  lemma HearingKeyid(des: BlockCipher, k: Option<Kind>, e: End, r: Rx, plain: seq<Octet>, sent: seq<seq<Octet>>)
    requires Hearing(k, e) && r == e.peer.rx.(log := e.peer.rx.log + [plain], cfb := r.cfb, ofb := r.ofb)
    requires r.log <= sent && Sane(k, r.kinds, sent) && Parse(plain).Sub? && Parse(plain).cmd == ENCRYPT_ENC_KEYID
    requires Said(e.peer.rx.log, ENCRYPT_IS) != []
    ensures Hearing(k, Heard(e, r, Parse(plain), des)) && Mild(OnRx(r, Parse(plain)).1)
  {
    hide Write, Said, OnEncKeyid;
    var m := Parse(plain);
    HeardOnce(e.peer.rx.log, plain, sent, ENCRYPT_ENC_KEYID);
    SaidAppend(e.peer.rx.log, plain, ENCRYPT_IS);
    SaidAppend(e.peer.rx.log, plain, ENCRYPT_ENC_KEYID);
    AnswersKeyid(r);
    var ms := OnRx(r, m).1;
    WriteAllMild(des, e.peer.tx, ms, ENCRYPT_SUPPORT);
    WriteAllMild(des, e.peer.tx, ms, ENCRYPT_REPLY);
    WriteAllMild(des, e.peer.tx, ms, ENCRYPT_DEC_KEYID);
  }

  /** An IV_OK, a DEC_KEYID and a SUPPORT from the receiver find the sender ready for them. */
  lemma SendingHandles(des: BlockCipher, key: Block, s: End, r: End, tx: Tx, plain: seq<Octet>, feed: Block)
    requires key != ZERO_BLOCK && Direction(des, key, s, r) && Direction(des, key, r, s)
    requires s.peer.rx.log + [plain] <= r.peer.tx.log
    requires tx.kinds == s.peer.tx.kinds
    requires Sending(des, key, s.keyed, r.peer.rx.kinds, tx, s.peer.rx.log, WithKey(r, key))
    requires Parse(plain).Sub? && Parse(plain).cmd in {ENCRYPT_SUPPORT, ENCRYPT_REPLY, ENCRYPT_DEC_KEYID} ==>
        tx == s.peer.tx
    ensures var t := OnTx(des, s.peer.server, tx, Parse(plain), feed);
            Sending(des, key, s.keyed, r.peer.rx.kinds, t, s.peer.rx.log + [plain], WithKey(r, key)) && Quiet(tx, t)
  {
    hide Write, Said, Drain, Usable, OnSupport, OnReply, OnDecKeyid, OnRequestStart, SendEnd, TxAt, InStep;
    var m := Parse(plain);
    var got := s.peer.rx.log;
    var rx := WithKey(r, key);
    var accepts := r.peer.rx.kinds;
    ReadSoFar(des, key, s, r);
    if m.Sub? && m.cmd == ENCRYPT_SUPPORT {
      HeardOnce(got, plain, r.peer.tx.log, ENCRYPT_SUPPORT);
      SendingSupport(des, key, s.keyed, accepts, tx, got, rx, plain, feed);
    } else if m.Sub? && m.cmd == ENCRYPT_REPLY {
      HeardOnce(got, plain, r.peer.tx.log, ENCRYPT_REPLY);
      SaidBefore(r.peer.rx.log, tx.log, ENCRYPT_IS);
      SendingReply(des, key, s.keyed, accepts, tx, got, rx, plain, Chosen(tx.kinds, accepts).value, feed);
    } else if m.Sub? && m.cmd == ENCRYPT_DEC_KEYID {
      HeardOnce(got, plain, r.peer.tx.log, ENCRYPT_DEC_KEYID);
      SaidBefore(r.peer.rx.log, tx.log, ENCRYPT_ENC_KEYID);
      SendingDecKeyid(des, key, s.keyed, accepts, tx, got, rx, plain, feed);
    } else {
      SendingHears(des, key, s.keyed, accepts, tx, got, rx, plain);
      if m.Sub? && m.cmd == ENCRYPT_REQSTART {
        SendingRequestStart(des, key, s.keyed, accepts, tx, got + [plain], rx, s.peer.server, feed);
      } else if m.Sub? && m.cmd == ENCRYPT_REQEND {
        SendingEnd(des, key, s.keyed, accepts, tx, got + [plain], rx);
      }
    }
  }

  // ----- every action keeps the invariant -----

  lemma HearingQuiet(k: Option<Kind>, e: End, t: Tx)
    requires Hearing(k, e) && Quiet(e.peer.tx, t)
    ensures Hearing(k, e.(peer := e.peer.(tx := t)))
  {
  }

  /** Taking a frame off the link changes nothing that counts for its sender. */
  lemma SendingPopped(des: BlockCipher, key: Block, s: End, r: End, after: End)
    requires Direction(des, key, s, r) && s.peer.tx.wire != []
    requires after.peer.rx.kinds == r.peer.rx.kinds
    requires Drain(des, WithKey(after, key), s.peer.tx.wire[1..]) == Drain(des, WithKey(r, key), s.peer.tx.wire)
    ensures var t := s.peer.tx.(wire := s.peer.tx.wire[1..]);
            Sending(des, key, s.keyed, after.peer.rx.kinds, t, s.peer.rx.log, WithKey(after, key))
  {
    hide Said, Drain, Usable;
    var t := s.peer.tx.(wire := s.peer.tx.wire[1..]);
    assert StageOf(t) == StageOf(s.peer.tx);
  }

  /** Reading changes no more of the receiver than its log and its streams. */
  lemma ReadShape(des: BlockCipher, rx: Rx, frame: seq<Octet>)
    ensures var r := Read(des, rx, frame).0;
            r == rx.(log := rx.log + [Read(des, rx, frame).1], cfb := r.cfb, ofb := r.ofb)
  {
  }

  /** The receiving half of one delivery: the answers, and the state they leave. */
  lemma HearingReceive(des: BlockCipher, key: Block, self: End, other: End)
    requires Direction(des, key, self, other) && Direction(des, key, other, self) && other.peer.tx.wire != []
    requires self.keyed || !IsStart(des, self.peer.rx, other.peer.tx.wire[0])
    ensures var (r, plain) := Read(des, self.peer.rx, other.peer.tx.wire[0]);
            && Hearing(Chosen(other.peer.tx.kinds, self.peer.rx.kinds), Heard(self, r, Parse(plain), des))
            && Mild(OnRx(r, Parse(plain)).1)
  {
    hide Write, Said, Drain, Usable, OnRx, Hearing, TxAt, InStep, Heard, Mild;
    var (r, plain) := Read(des, self.peer.rx, other.peer.tx.wire[0]);
    var m := Parse(plain);
    var k := Chosen(other.peer.tx.kinds, self.peer.rx.kinds);
    NextFrame(des, key, other, self);
    ReadShape(des, self.peer.rx, other.peer.tx.wire[0]);
    SenderIsSane(des, key, other, self);
    if m.Sub? && m.cmd == ENCRYPT_IS {
      HearingIv(des, k, self, r, plain, other.peer.tx.log);
    } else if m.Sub? && m.cmd == ENCRYPT_ENC_KEYID {
      ReadSoFar(des, key, self, other);
      HeardOnce(self.peer.rx.log, plain, other.peer.tx.log, ENCRYPT_ENC_KEYID);
      assert Said(other.peer.rx.log, ENCRYPT_REPLY) != [];
      SaidBefore(other.peer.rx.log, self.peer.tx.log, ENCRYPT_REPLY);
      assert Said(self.peer.rx.log, ENCRYPT_IS) != [] by { RepliedAfterIv(k, self); }
      HearingKeyid(des, k, self, r, plain, other.peer.tx.log);
    } else {
      HearingOther(des, k, self, r, plain);
    }
  }

  /** A REPLY is only ever said after an IV has been heard. */
  lemma RepliedAfterIv(k: Option<Kind>, e: End)
    requires Hearing(k, e)
    ensures Said(e.peer.tx.log, ENCRYPT_REPLY) != [] ==> Said(e.peer.rx.log, ENCRYPT_IS) != []
  {
  }

  lemma ReceiveKeeps(des: BlockCipher, key: Block, self: End, other: End, feed: Block)
    requires key != ZERO_BLOCK && Direction(des, key, self, other) && Direction(des, key, other, self)
    ensures var (s, o) := Act(des, key, self, other, Receive(feed));
            Direction(des, key, s, o) && Direction(des, key, o, s)
  {
    hide Write, Said, Drain, Usable, OnRx, OnTx, Hearing, TxAt, InStep, Told, Mild, WriteAll, Sending, Read;
    var wire := other.peer.tx.wire;
    if wire == [] || (!self.keyed && IsStart(des, self.peer.rx, wire[0])) {
      return;
    }
    var (r, plain) := Read(des, self.peer.rx, wire[0]);
    var m := Parse(plain);
    var (rx, replies) := OnRx(r, m);
    var tx1 := WriteAll(des, self.peer.tx, replies);
    var tx2 := OnTx(des, self.peer.server, tx1, m, feed);
    var s := self.(peer := self.peer.(rx := rx, tx := tx2));
    var o := other.(peer := other.peer.(tx := other.peer.tx.(wire := wire[1..])));
    assert Act(des, key, self, other, Receive(feed)) == (s, o);
    assert RxStep(des, self.peer.rx, wire[0]) == rx;
    NextFrame(des, key, other, self);
    HearingReceive(des, key, self, other);
    StepLog(des, self.peer.rx, wire[0]);
    RepliesKeep(des, key, self, other, r, m);
    SendingHandles(des, key, self, other, tx1, plain, feed);
    HearingQuiet(Chosen(other.peer.tx.kinds, self.peer.rx.kinds), Heard(self, r, m, des), tx2);
    SendingPopped(des, key, other, self, self.(peer := self.peer.(rx := rx)));
    assert WithKey(s, key) == WithKey(self.(peer := self.peer.(rx := rx)), key);
    assert WithKey(o, key) == WithKey(other, key);
    HearingPopped(Chosen(self.peer.tx.kinds, other.peer.rx.kinds), other);
  }

  lemma HearingPopped(k: Option<Kind>, e: End)
    requires Hearing(k, e) && e.peer.tx.wire != []
    ensures Hearing(k, e.(peer := e.peer.(tx := e.peer.tx.(wire := e.peer.tx.wire[1..]))))
  {
  }

  /** The answers of the input direction travel on the output without disturbing it, and messages
      that the output direction acts on are never answered. */
  lemma RepliesKeep(des: BlockCipher, key: Block, self: End, other: End, r: Rx, m: Message)
    requires Direction(des, key, self, other) && Mild(OnRx(r, m).1)
    ensures var tx := WriteAll(des, self.peer.tx, OnRx(r, m).1);
            && tx.kinds == self.peer.tx.kinds
            && Sending(des, key, self.keyed, other.peer.rx.kinds, tx, self.peer.rx.log, WithKey(other, key))
            && (m.Sub? && m.cmd in {ENCRYPT_SUPPORT, ENCRYPT_REPLY, ENCRYPT_DEC_KEYID} ==> tx == self.peer.tx)
  {
    hide Write, Said, Drain, Usable, Hearing, TxAt, InStep, Told, Sending;
    var ms := OnRx(r, m).1;
    WriteAllMild(des, self.peer.tx, ms, ENCRYPT_SUPPORT);
    if ms != [] {
      var rx := WithKey(other, key);
      SendingNeutral(des, key, self.keyed, other.peer.rx.kinds, self.peer.tx, self.peer.rx.log, rx, ms[0]);
      WriteShape(des, self.peer.tx, ms[0]);
    }
  }

  /** An end that only writes keeps both directions if its output direction kept its half. */
  lemma TxKeeps(des: BlockCipher, key: Block, self: End, other: End, t: Tx)
    requires Direction(des, key, self, other) && Direction(des, key, other, self)
    requires Sending(des, key, self.keyed, other.peer.rx.kinds, t, self.peer.rx.log, WithKey(other, key))
    requires Quiet(self.peer.tx, t)
    ensures var s := self.(peer := self.peer.(tx := t));
            Direction(des, key, s, other) && Direction(des, key, other, s)
  {
    hide Said, Drain, Usable, Hearing, TxAt, InStep, Told, Sending;
    var s := self.(peer := self.peer.(tx := t));
    HearingQuiet(Chosen(other.peer.tx.kinds, self.peer.rx.kinds), self, t);
    assert WithKey(s, key) == WithKey(self, key);
  }

  /** Data and requests. */
  lemma PutKeeps(des: BlockCipher, key: Block, self: End, other: End, m: Message)
    requires Direction(des, key, self, other) && Direction(des, key, other, self)
    requires m.Data? || m.cmd == ENCRYPT_REQSTART || m.cmd == ENCRYPT_REQEND
    ensures var s := self.(peer := self.peer.(tx := Write(des, self.peer.tx, m)));
            Direction(des, key, s, other) && Direction(des, key, other, s)
  {
    hide Write, Said, Drain, Usable, Hearing, TxAt, InStep, Told, Sending;
    SendingNeutral(des, key, self.keyed, other.peer.rx.kinds, self.peer.tx, self.peer.rx.log, WithKey(other, key), m);
    SaidQuiet(des, self.peer.tx, m);
    TxKeeps(des, key, self, other, Write(des, self.peer.tx, m));
  }

  lemma HearingSupport(des: BlockCipher, k: Option<Kind>, e: End)
    requires Hearing(k, e) && !e.peer.supportSent
    ensures var tx := Write(des, e.peer.tx, Sub(ENCRYPT_SUPPORT, Types(e.peer.rx.kinds)));
            Hearing(k, e.(peer := e.peer.(supportSent := true, tx := tx)))
  {
    hide Write, Said;
    var m := Sub(ENCRYPT_SUPPORT, Types(e.peer.rx.kinds));
    SaidWrite(des, e.peer.tx, m, ENCRYPT_SUPPORT);
    SaidWrite(des, e.peer.tx, m, ENCRYPT_REPLY);
    SaidWrite(des, e.peer.tx, m, ENCRYPT_DEC_KEYID);
  }

  lemma SupportKeeps(des: BlockCipher, key: Block, self: End, other: End)
    requires Direction(des, key, self, other) && Direction(des, key, other, self)
    ensures var s := self.(peer := SendSupport(des, self.peer));
            Direction(des, key, s, other) && Direction(des, key, other, s)
  {
    hide Write, Said, Drain, Usable, Hearing, TxAt, InStep, Told, Sending;
    if !self.peer.supportSent {
      var p := self.peer;
      var ask := Sub(ENCRYPT_REQSTART, p.rx.keyid);
      var asks := !p.server && p.rx.auto;
      PutKeeps(des, key, self, other, ask);
      var e := if asks then self.(peer := p.(tx := Write(des, p.tx, ask))) else self;
      var m := Sub(ENCRYPT_SUPPORT, Types(p.rx.kinds));
      SendingNeutral(des, key, e.keyed, other.peer.rx.kinds, e.peer.tx, e.peer.rx.log, WithKey(other, key), m);
      HearingSupport(des, Chosen(other.peer.tx.kinds, p.rx.kinds), e);
      WriteShape(des, e.peer.tx, m);
      var s := self.(peer := SendSupport(des, p));
      assert s == e.(peer := e.peer.(supportSent := true, tx := Write(des, e.peer.tx, m)));
      assert WithKey(s, key) == WithKey(e, key) == WithKey(self, key);
    }
  }

  lemma HearingKey(k: Option<Kind>, e: End, key: Block, t: Tx)
    requires Hearing(k, e) && Quiet(e.peer.tx, t)
    ensures Hearing(k, End(e.peer.(tx := t, rx := KeyedIn(e.peer.rx, key)), true))
  {
  }

  lemma KeyKeeps(des: BlockCipher, key: Block, self: End, other: End, f: Block, g: Block)
    requires key != ZERO_BLOCK && !self.keyed && Direction(des, key, self, other) && Direction(des, key, other, self)
    ensures var s := End(SessionKey(des, self.peer, key, f, g), true);
            Direction(des, key, s, other) && Direction(des, key, other, s)
  {
    hide Write, Said, Drain, Usable, Hearing, TxAt, InStep, Told, Sending, FbSession;
    var s := End(SessionKey(des, self.peer, key, f, g), true);
    SendingKey(des, key, other.peer.rx.kinds, self.peer.tx, self.peer.rx.log, WithKey(other, key), f, g);
    HearingKey(Chosen(other.peer.tx.kinds, self.peer.rx.kinds), self, key, s.peer.tx);
    assert WithKey(s, key) == WithKey(self, key);
  }

  lemma ActKeeps(des: BlockCipher, key: Block, self: End, other: End, act: Action)
    requires key != ZERO_BLOCK && Direction(des, key, self, other) && Direction(des, key, other, self)
    ensures var (s, o) := Act(des, key, self, other, act);
            Direction(des, key, s, o) && Direction(des, key, o, s)
  {
    hide Write, Direction, Said, Drain, Usable, Hearing, TxAt, InStep, Told, StartOutput, SendEnd, Deliver,
        SessionKey, SendSupport;
    var tx := self.peer.tx;
    match act
    case Support => SupportKeeps(des, key, self, other);
    case InstallKey(f, g) => if !self.keyed { KeyKeeps(des, key, self, other, f, g); }
    case Receive(feed) => ReceiveKeeps(des, key, self, other, feed);
    case Put(bytes) => PutKeeps(des, key, self, other, Data(bytes));
    case StartOut(feed) => UserStartKeeps(des, key, self, other, feed);
    case StopOut => StopKeeps(des, key, self, other);
    case AskStart => PutKeeps(des, key, self, other, Sub(ENCRYPT_REQSTART, self.peer.rx.keyid));
    case AskEnd => PutKeeps(des, key, self, other, Sub(ENCRYPT_REQEND, []));
  }

  lemma UserStartKeeps(des: BlockCipher, key: Block, self: End, other: End, feed: Block)
    requires key != ZERO_BLOCK && Direction(des, key, self, other) && Direction(des, key, other, self)
    ensures var s := self.(peer := UserStart(des, self.peer, feed));
            Direction(des, key, s, other) && Direction(des, key, other, s)
  {
    hide Write, Said, Drain, Usable, Hearing, TxAt, InStep, Told, Sending, StartOutput;
    if self.peer.tx.mode.Some? {
      var rx := WithKey(other, key);
      SendingStartOutput(des, key, self.keyed, other.peer.rx.kinds, self.peer.tx, self.peer.rx.log, rx, feed);
      TxKeeps(des, key, self, other, StartOutput(des, self.peer.tx, self.peer.tx.mode.value, feed));
    }
  }

  lemma StopKeeps(des: BlockCipher, key: Block, self: End, other: End)
    requires Direction(des, key, self, other) && Direction(des, key, other, self)
    ensures var s := self.(peer := self.peer.(tx := SendEnd(des, self.peer.tx)));
            Direction(des, key, s, other) && Direction(des, key, other, s)
  {
    hide Write, Said, Drain, Usable, Hearing, TxAt, InStep, Told, Sending, SendEnd;
    SendingEnd(des, key, self.keyed, other.peer.rx.kinds, self.peer.tx, self.peer.rx.log, WithKey(other, key));
    TxKeeps(des, key, self, other, SendEnd(des, self.peer.tx));
  }

  lemma FreshDirection(des: BlockCipher, key: Block, s: End, r: End)
    requires Fresh(s) && Fresh(r)
    ensures Direction(des, key, s, r)
  {
  }

  lemma {:induction false} RunKeeps(des: BlockCipher, key: Block, sys: System, events: seq<Event>)
    requires key != ZERO_BLOCK && Fresh(sys.left) && Fresh(sys.right)
    ensures Inv(des, key, Run(des, key, sys, events))
    decreases |events|
  {
    hide Act, Direction;
    if events == [] {
      FreshDirection(des, key, sys.left, sys.right);
      FreshDirection(des, key, sys.right, sys.left);
    } else {
      RunKeeps(des, key, sys, events[..|events| - 1]);
      var mid := Run(des, key, sys, events[..|events| - 1]);
      var e := events[|events| - 1];
      if e.left {
        ActKeeps(des, key, mid.left, mid.right, e.action);
      } else {
        ActKeeps(des, key, mid.right, mid.left, e.action);
      }
    }
  }

  // ----- main results -----

  /** The two ends of one direction, as a user sees them: every frame read is the frame written at
      that place, what is missing is in transit, and the receiver that has read all of it decrypts
      with the very stream the sender encrypts with. */
  ghost predicate Faithful(des: BlockCipher, key: Block, s: End, r: End) {
    && r.peer.rx.log <= s.peer.tx.log
    && |s.peer.tx.log| == |r.peer.rx.log| + |s.peer.tx.wire|
    && var d := Drain(des, WithKey(r, key), s.peer.tx.wire);
    && d.log == s.peer.tx.log
    && d.input == s.peer.tx.output
    && forall k :: s.peer.tx.output == Some(k) ==> d.Fb(k).stream == s.peer.tx.Fb(k).stream
  }

  /** Whatever the two ends do and however the links delay it, in both directions the plain text
      that is read is the plain text that was written. */
  lemma DataPathIsFaithful(des: BlockCipher, key: Block, sys: System, events: seq<Event>)
    requires key != ZERO_BLOCK && Fresh(sys.left) && Fresh(sys.right)
    ensures var end := Run(des, key, sys, events);
            Faithful(des, key, end.left, end.right) && Faithful(des, key, end.right, end.left)
  {
    hide Act, Drain, Said, Hearing, TxAt, Told;
    var end := Run(des, key, sys, events);
    RunKeeps(des, key, sys, events);
    ReadSoFar(des, key, end.left, end.right);
    ReadSoFar(des, key, end.right, end.left);
  }

  /** The sender has settled on the method that both ends know, and the receiver with it. */
  predicate Settled(s: End, r: End) {
    var k := Chosen(s.peer.tx.kinds, r.peer.rx.kinds);
    s.keyed && r.peer.supportSent && k.Some? && s.peer.tx.wire == [] && r.peer.tx.wire == [] ==>
      && s.peer.tx.mode == k && s.peer.tx.Fb(k.value).state == SUCCESS
      && r.peer.rx.mode == k && s.peer.tx.keyid == KEYID_ZERO
  }

  lemma DirectionSettles(des: BlockCipher, key: Block, s: End, r: End)
    requires Direction(des, key, s, r) && Direction(des, key, r, s)
    ensures Settled(s, r)
  {
    hide Drain, Said, Usable;
    ReadSoFar(des, key, s, r);
    ReadSoFar(des, key, r, s);
    if s.peer.tx.wire == [] && r.peer.tx.wire == [] {
      assert r.peer.rx.log == s.peer.tx.log && s.peer.rx.log == r.peer.tx.log;
    }
  }

  /** Nothing is left to wait for, in either direction: once the sender has the key, the receiver has
      offered its methods, one of them suits the sender and nothing is in transit, encryption is ready
      to go. */
  lemma HandshakeCompletes(des: BlockCipher, key: Block, sys: System, events: seq<Event>)
    requires key != ZERO_BLOCK && Fresh(sys.left) && Fresh(sys.right)
    ensures var end := Run(des, key, sys, events);
            Settled(end.left, end.right) && Settled(end.right, end.left)
  {
    hide Run, Direction, Settled;
    var end := Run(des, key, sys, events);
    RunKeeps(des, key, sys, events);
    DirectionSettles(des, key, end.left, end.right);
    DirectionSettles(des, key, end.right, end.left);
  }
}
