/** Output is switched on and off when it should be: what a start, a stop and the data between them put
    on the line, and what becomes of offers and refusals. */
module EncryptSwitch {
  import opened Basics
  import opened FeedbackCipher
  import opened TelnetFrames
  import opened EncryptOption
  import opened EncryptSession
  import opened EncryptLockstep
  import opened EncryptRuns
  import opened EncryptProgress

  /** The handshake for output with method k is complete. */
  predicate Complete(tx: Tx, k: Kind) { tx.mode == Some(k) && tx.Fb(k).state == SUCCESS }

  /** START with key id 0 was the last thing said, output is encrypted with method k, and the receiver
      that reads all there is decrypts with the stream that the sender will encrypt with. */
  predicate SwitchedOn(des: BlockCipher, key: Block, k: Kind, before: Tx, s: End, r: End) {
    && s.peer.tx.log == before.log + [Line(3, [0])]
    && s.peer.tx.output == Some(k) && s.peer.tx.mode == Some(k)
    && var d := Drain(des, WithKey(r, key), s.peer.tx.wire);
    && d.input == Some(k) && d.Fb(k).stream == s.peer.tx.Fb(k).stream
  }

  /** END was the last thing said, output is in clear, and so is what the receiver expects. */
  predicate SwitchedOff(des: BlockCipher, key: Block, before: Tx, s: End, r: End) {
    && s.peer.tx.log == before.log + [Line(4, [])]
    && s.peer.tx.output == None && Drain(des, WithKey(r, key), s.peer.tx.wire).input == None
  }

  lemma StartSays(des: BlockCipher, tx: Tx, k: Kind, feed: Block)
    requires tx.Finds(k) && tx.Fb(k).state == SUCCESS
    ensures var t := StartOutput(des, tx, k, feed);
            && t.log == tx.log + [Line(3, tx.keyid)]
            && t.wire == tx.wire + [LastFrame(des, tx, Sub(ENCRYPT_START, tx.keyid))]
            && t.output == Some(k) && Complete(t, k) && t.auto == tx.auto && t.keyid == tx.keyid
  {
    hide Write, LastFrame;
    WriteShape(des, tx, Sub(ENCRYPT_START, tx.keyid));
  }

  /** A sender that is complete knows its method, and key id 0 was agreed on. */
  lemma CompleteKnows(des: BlockCipher, key: Block, s: End, r: End, k: Kind)
    requires Direction(des, key, s, r) && Complete(s.peer.tx, k)
    ensures s.peer.tx.Finds(k) && s.peer.tx.keyid == [0]
  {
    hide Drain, Said, Usable, InStep, Told;
  }

  lemma InStepMeans(des: BlockCipher, key: Block, s: End, r: End, k: Kind)
    requires Direction(des, key, s, r)
    ensures var d := Drain(des, WithKey(r, key), s.peer.tx.wire);
            && d.input == s.peer.tx.output
            && (s.peer.tx.output == Some(k) ==> d.Fb(k).stream == s.peer.tx.Fb(k).stream)
  {
    hide Drain, Said, Usable, TxAt, Told;
  }

  /** The user's start switches output on when the handshake is complete. */
  lemma StartSwitchesOn(des: BlockCipher, key: Block, self: End, other: End, feed: Block, k: Kind)
    requires key != ZERO_BLOCK && Direction(des, key, self, other) && Direction(des, key, other, self)
    requires Complete(self.peer.tx, k)
    ensures var (s, o) := Act(des, key, self, other, StartOut(feed));
            SwitchedOn(des, key, k, self.peer.tx, s, o)
  {
    hide Direction, Drain, StartOutput, LastFrame;
    var (s, o) := Act(des, key, self, other, StartOut(feed));
    CompleteKnows(des, key, self, other, k);
    StartSays(des, self.peer.tx, k, feed);
    ActKeeps(des, key, self, other, StartOut(feed));
    InStepMeans(des, key, s, o, k);
  }

  /** What the sender has heard before the first key id comes back. */
  lemma WaitsForKeyid(des: BlockCipher, key: Block, s: End, r: End, plain: seq<Octet>)
    requires Direction(des, key, s, r) && s.peer.rx.log + [plain] <= r.peer.tx.log
    requires Parse(plain).Sub? && Parse(plain).cmd == ENCRYPT_DEC_KEYID
    ensures var tx := s.peer.tx;
            && Parse(plain).payload == [0] && tx.keyid == [0]
            && tx.mode.Some? && tx.Finds(tx.mode.value) && tx.Fb(tx.mode.value).state == Bits(false, false, true)
  {
    hide Drain, InStep, Usable, Said;
    HeardOnce(s.peer.rx.log, plain, r.peer.tx.log, ENCRYPT_DEC_KEYID);
    ReadSoFar(des, key, s, r);
    SaidBefore(r.peer.rx.log, s.peer.tx.log, ENCRYPT_ENC_KEYID);
  }

  /** The key id that completes the handshake: with automatic encryption it starts output at once. */
  lemma KeyidCompletes(des: BlockCipher, tx: Tx, k: Kind, feed: Block)
    requires tx.mode == Some(k) && tx.Finds(k) && tx.keyid == [0]
    requires tx.Fb(k).state == Bits(false, false, true)
    ensures var t := OnDecKeyid(des, tx, [0], feed);
            && Complete(t, k)
            && (tx.auto ==> t.output == Some(k) && t.log == tx.log + [Line(3, [0])])
            && (!tx.auto ==> t.output == tx.output && t.log == tx.log)
  {
    hide Write, LastFrame;
    var u := tx.With(k, tx.Fb(k).(state := SUCCESS)).(keyid := [0]);
    assert OnDecKeyid(des, tx, [0], feed) == if u.auto then StartOutput(des, u, k, feed) else u;
    StartSays(des, u, k, feed);
    WriteShape(des, u, Sub(ENCRYPT_START, [0]));
  }

  /** Any other key id is answered by an empty one, and starts nothing. */
  lemma OtherKeyidIsRefused(des: BlockCipher, tx: Tx, k: Kind, id: seq<Octet>, feed: Block)
    requires tx.mode == Some(k) && tx.Finds(k) && 0 < |id| <= MAXKEYLEN && id != [0] && id != tx.keyid
    ensures var t := OnDecKeyid(des, tx, id, feed);
            && t.keyid == [] && t.output == tx.output && t.Fb(k).state == tx.Fb(k).state
            && t.log == tx.log + [Line(7, [])]
  {
    hide Write;
    var u := tx.With(k, tx.Fb(k).(state := tx.Fb(k).state)).(keyid := []);
    WriteShape(des, u, Sub(ENCRYPT_ENC_KEYID, []));
  }

  /** The automatic start: the frame that brings the key id back is the one that switches output on. */
  lemma AutoStartSwitchesOn(des: BlockCipher, key: Block, self: End, other: End, feed: Block)
    requires key != ZERO_BLOCK && Direction(des, key, self, other) && Direction(des, key, other, self)
    requires self.keyed && self.peer.tx.auto && other.peer.tx.wire != []
    requires var m := Parse(Read(des, self.peer.rx, other.peer.tx.wire[0]).1);
             m.Sub? && m.cmd == ENCRYPT_DEC_KEYID
    ensures var (s, o) := Act(des, key, self, other, Receive(feed));
            self.peer.tx.mode.Some? && SwitchedOn(des, key, self.peer.tx.mode.value, self.peer.tx, s, o)
  {
    hide Direction, Drain, OnDecKeyid, Read, Said;
    var (r, plain) := Read(des, self.peer.rx, other.peer.tx.wire[0]);
    var (s, o) := Act(des, key, self, other, Receive(feed));
    NextFrame(des, key, other, self);
    WaitsForKeyid(des, key, self, other, plain);
    var k := self.peer.tx.mode.value;
    KeyidCompletes(des, self.peer.tx, k, feed);
    assert s.peer.tx == OnDecKeyid(des, self.peer.tx, [0], feed);
    ActKeeps(des, key, self, other, Receive(feed));
    InStepMeans(des, key, s, o, k);
  }

  /** The user's stop goes back to clear text. */
  lemma StopSwitchesOff(des: BlockCipher, key: Block, self: End, other: End)
    requires key != ZERO_BLOCK && Direction(des, key, self, other) && Direction(des, key, other, self)
    requires self.peer.tx.output.Some?
    ensures var (s, o) := Act(des, key, self, other, StopOut);
            SwitchedOff(des, key, self.peer.tx, s, o)
  {
    hide Direction, Drain, Write;
    var (s, o) := Act(des, key, self, other, StopOut);
    WriteShape(des, self.peer.tx, Sub(ENCRYPT_END, []));
    ActKeeps(des, key, self, other, StopOut);
    InStepMeans(des, key, s, o, Cfb);
  }

  /** What data add to the line: the doubled octets, encrypted when output is on and as they are when it
      is not. */
  lemma PutAdds(des: BlockCipher, key: Block, self: End, other: End, bytes: seq<Octet>)
    ensures var tx, t := self.peer.tx, Act(des, key, self, other, Put(bytes)).0.peer.tx;
            t.wire == tx.wire + [match tx.output
                                 case None => Doubled(bytes)
                                 case Some(k) => Encrypt(k, des, tx.Fb(k).stream, Doubled(bytes)).1]
  {
    hide Encrypt, Doubled;
    WriteShape(des, self.peer.tx, Data(bytes));
  }

  // ----- in whole runs -----

  function Near(sys: System, left: bool): End { if left then sys.left else sys.right }

  function Far(sys: System, left: bool): End { if left then sys.right else sys.left }

  lemma RunOneMore(des: BlockCipher, key: Block, sys: System, events: seq<Event>, e: Event)
    ensures Run(des, key, sys, events + [e]) == Step(des, key, Run(des, key, sys, events), e)
  {
    hide Step;
    assert (events + [e])[..|events + [e]| - 1] == events;
  }

  /** After any run that has completed the handshake of one end's output, a start by the user is said, is
      understood, and the data that follow go over the line encrypted with the stream that the receiver
      decrypts with. */
  lemma StartedOutputIsEncrypted(des: BlockCipher, key: Block, sys: System, events: seq<Event>,
                                 left: bool, feed: Block, bytes: seq<Octet>, k: Kind)
    requires key != ZERO_BLOCK && Fresh(sys.left) && Fresh(sys.right)
    requires Complete(Near(Run(des, key, sys, events), left).peer.tx, k)
    ensures var was := Run(des, key, sys, events);
            var on := Run(des, key, sys, events + [Event(left, StartOut(feed))]);
            var put := Run(des, key, sys, events + [Event(left, StartOut(feed))] + [Event(left, Put(bytes))]);
            var tx := Near(on, left).peer.tx;
            && SwitchedOn(des, key, k, Near(was, left).peer.tx, Near(on, left), Far(on, left))
            && Near(put, left).peer.tx.wire == tx.wire + [Encrypt(k, des, tx.Fb(k).stream, Doubled(bytes)).1]
  {
    hide Run, Direction, Act, SwitchedOn, Encrypt, Doubled, Drain;
    var was := Run(des, key, sys, events);
    var start, data := Event(left, StartOut(feed)), Event(left, Put(bytes));
    RunKeeps(des, key, sys, events);
    RunOneMore(des, key, sys, events, start);
    RunOneMore(des, key, sys, events + [start], data);
    var on := Run(des, key, sys, events + [start]);
    StartSwitchesOn(des, key, Near(was, left), Far(was, left), feed, k);
    PutAdds(des, key, Near(on, left), Far(on, left), bytes);
    OnMeans(des, key, k, Near(was, left).peer.tx, Near(on, left), Far(on, left));
  }

  lemma OnMeans(des: BlockCipher, key: Block, k: Kind, before: Tx, s: End, r: End)
    requires SwitchedOn(des, key, k, before, s, r)
    ensures s.peer.tx.output == Some(k)
  {
  }

  /** With automatic encryption, the delivery that completes the handshake also switches output on, with
      no start by the user. */
  lemma AutoStartInRuns(des: BlockCipher, key: Block, sys: System, events: seq<Event>, left: bool, feed: Block)
    requires key != ZERO_BLOCK && Fresh(sys.left) && Fresh(sys.right)
    requires var was := Run(des, key, sys, events);
             var s, wire := Near(was, left), Far(was, left).peer.tx.wire;
             && s.keyed && s.peer.tx.auto && wire != []
             && var m := Parse(Read(des, s.peer.rx, wire[0]).1); m.Sub? && m.cmd == ENCRYPT_DEC_KEYID
    ensures var was := Near(Run(des, key, sys, events), left).peer.tx;
            var on := Run(des, key, sys, events + [Event(left, Receive(feed))]);
            was.mode.Some? && SwitchedOn(des, key, was.mode.value, was, Near(on, left), Far(on, left))
  {
    hide Run, Direction, Act, SwitchedOn, Drain, Read, Parse;
    var was := Run(des, key, sys, events);
    RunKeeps(des, key, sys, events);
    RunOneMore(des, key, sys, events, Event(left, Receive(feed)));
    AutoStartSwitchesOn(des, key, Near(was, left), Far(was, left), feed);
  }

  /** After a stop, wherever output was on, the data that follow go over the line as they are. */
  lemma StoppedOutputIsClear(des: BlockCipher, key: Block, sys: System, events: seq<Event>,
                             left: bool, bytes: seq<Octet>)
    requires key != ZERO_BLOCK && Fresh(sys.left) && Fresh(sys.right)
    requires Near(Run(des, key, sys, events), left).peer.tx.output.Some?
    ensures var was := Run(des, key, sys, events);
            var off := Run(des, key, sys, events + [Event(left, StopOut)]);
            var put := Run(des, key, sys, events + [Event(left, StopOut)] + [Event(left, Put(bytes))]);
            && SwitchedOff(des, key, Near(was, left).peer.tx, Near(off, left), Far(off, left))
            && Near(put, left).peer.tx.wire == Near(off, left).peer.tx.wire + [Doubled(bytes)]
  {
    hide Run, Direction, Act, SwitchedOff, Encrypt, Doubled, Drain;
    var was := Run(des, key, sys, events);
    var stop, data := Event(left, StopOut), Event(left, Put(bytes));
    RunKeeps(des, key, sys, events);
    RunOneMore(des, key, sys, events, stop);
    RunOneMore(des, key, sys, events + [stop], data);
    var off := Run(des, key, sys, events + [stop]);
    StopSwitchesOff(des, key, Near(was, left), Far(was, left));
    PutAdds(des, key, Near(off, left), Far(off, left), bytes);
    OffMeans(des, key, Near(was, left).peer.tx, Near(off, left), Far(off, left));
  }

  lemma OffMeans(des: BlockCipher, key: Block, before: Tx, s: End, r: End)
    requires SwitchedOff(des, key, before, s, r)
    ensures s.peer.tx.output == None
  {
  }

  // ----- offers and refusals -----

  /** An end offers its methods once; a client that wants to decrypt asks for a start before that. */
  lemma OfferIsMadeOnce(des: BlockCipher, p: Peer)
    ensures var q := SendSupport(des, p);
            && q.supportSent && q.rx == p.rx && SendSupport(des, q) == q
            && (p.supportSent ==> q == p)
            && (!p.supportSent ==>
                  q.tx.log == p.tx.log
                    + (if !p.server && p.rx.auto then [Line(5, p.rx.keyid)] else [])
                    + [Line(1, Types(p.rx.kinds))])
  {
    hide Write, Frame;
    var ask := Sub(ENCRYPT_REQSTART, p.rx.keyid);
    var t := if !p.server && p.rx.auto then Write(des, p.tx, ask) else p.tx;
    FrameIsLine(ask);
    FrameIsLine(Sub(ENCRYPT_SUPPORT, Types(p.rx.kinds)));
    WriteShape(des, p.tx, ask);
    WriteShape(des, t, Sub(ENCRYPT_SUPPORT, Types(p.rx.kinds)));
  }

  /** Type 1 is CFB and type 2 is OFB; the type is one that the end can encrypt with. */
  predicate Ours(kinds: seq<Kind>, t: Octet) { (t == 1 && Cfb in kinds) || (t == 2 && Ofb in kinds) }

  /** The method is the first in the peer's list that the sender has itself. */
  lemma {:induction false} FirstCommonMethod(sends: seq<Kind>, types: seq<Octet>) returns (i: nat)
    ensures i <= |types| && forall j :: 0 <= j < i ==> !Ours(sends, types[j])
    ensures var usable := Usable(sends, types);
            if i == |types| then usable == []
            else Ours(sends, types[i]) && usable != [] && usable[0] == if types[i] == 1 then Cfb else Ofb
    decreases |types|
  {
    if types == [] || Ours(sends, types[0]) {
      return 0;
    }
    var j := FirstCommonMethod(sends, types[1..]);
    i := j + 1;
    forall n | 0 <= n < i ensures !Ours(sends, types[n]) {
      if n > 0 {
        assert types[1..][n - 1] == types[n];
      }
    }
  }

  /** A request to start: with a complete handshake output is switched on; a server that has no method
      yet will start by itself, a client forgets the request. */
  lemma RequestIsHeeded(des: BlockCipher, tx: Tx, server: bool, feed: Block)
    ensures var t := OnRequestStart(des, tx, server, feed);
            && (tx.mode.None? ==> t == tx.(auto := tx.auto || server))
            && (tx.mode.Some? && tx.Finds(tx.mode.value) && Complete(tx, tx.mode.value) ==>
                  t.output == tx.mode && t.log == tx.log + [Line(3, tx.keyid)])
  {
    hide Write, LastFrame, StartOutput;
    if tx.mode.Some? && tx.Finds(tx.mode.value) && Complete(tx, tx.mode.value) {
      StartSays(des, tx, tx.mode.value, feed);
    }
  }

  /** Anything but an acknowledgement of the IV fails the method and ends automatic encryption. */
  lemma RefusalEndsAuto(des: BlockCipher, tx: Tx, k: Kind, data: seq<Octet>, feed: Block)
    requires tx.Finds(k) && (data == [] || data[0] != FB64_IV_OK)
    ensures var t := OnReply(des, tx, [TypeOf(k)] + data, feed);
            && t.Fb(k).state == Failed && !t.auto && t.output == tx.output && t.log == tx.log && t.wire == tx.wire
  {
    assert ([TypeOf(k)] + data)[1..] == data;
  }

  /** An acknowledged IV is put to use, key id 0 is proposed, and automatic encryption stays as it is. */
  lemma AcknowledgementProposesKeyid(des: BlockCipher, tx: Tx, k: Kind, feed: Block)
    requires tx.Finds(k) && tx.mode == Some(k) && tx.Fb(k).state == Bits(false, true, true)
    ensures var t := OnReply(des, tx, [TypeOf(k), FB64_IV_OK], feed);
            && t.Fb(k).state == Bits(false, false, true) && t.mode == Some(k) && t.keyid == [0]
            && t.auto == tx.auto && t.output == tx.output
            && t.log == tx.log + [Line(7, [0])]
  {
    hide Write;
    IvOkReply(des, tx, k, feed);
    WriteShape(des, AfterIvOk(tx, k), Sub(ENCRYPT_ENC_KEYID, KEYID_ZERO));
  }

  /** Only a whole IV is taken; one of the wrong length also fails the method. */
  lemma IvIsTakenWhole(fb: InFb, data: seq<Octet>)
    ensures var (now, verdict) := FbIs(fb, data);
            && (data != [] && data[0] == FB64_IV && |data| == 9 ==>
                  verdict == FB64_IV_OK && now.state == IN_PROGRESS && now.stream == Seeded(fb.stream, data[1..]))
            && (!(data != [] && data[0] == FB64_IV && |data| == 9) ==>
                  verdict == FB64_IV_BAD && now.stream == fb.stream
                  && now.state == if data != [] && data[0] == FB64_IV then Failed else fb.state)
  {
  }

  /** A START for which there is no method is refused. */
  lemma StartWithoutMethod(rx: Rx)
    requires rx.mode.None? || !rx.Finds(rx.mode.value)
    ensures OnRx(rx, Sub(ENCRYPT_START, [0])) == (rx, [Sub(ENCRYPT_REQEND, [])])
  {
  }
}
