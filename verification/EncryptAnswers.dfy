/** What one end answers to each suboption, octet for octet, and what it remembers of it. */
module EncryptAnswers {
  import opened Basics
  import opened FeedbackCipher
  import opened TelnetFrames
  import opened EncryptOption
  import opened EncryptSession
  import opened EncryptLockstep
  import opened EncryptRuns
  import opened EncryptProgress
  import opened EncryptSwitch

  /** What is said on the output when the messages ms are written. */
  function Lines(ms: seq<Message>): seq<seq<Octet>> {
    if ms == [] then [] else [Frame(ms[0])] + Lines(ms[1..])
  }

  lemma {:induction false} WriteAllSays(des: BlockCipher, tx: Tx, ms: seq<Message>)
    ensures WriteAll(des, tx, ms).log == tx.log + Lines(ms)
    decreases |ms|
  {
    hide Write, Frame;
    if ms == [] {
      assert tx.log + [] == tx.log;
    } else {
      WriteShape(des, tx, ms[0]);
      WriteAllSays(des, Write(des, tx, ms[0]), ms[1..]);
      assert tx.log + [Frame(ms[0])] + Lines(ms[1..]) == tx.log + ([Frame(ms[0])] + Lines(ms[1..]));
    }
  }

  /** What the input direction answers to a suboption. */
  function Answers(rx: Rx, cmd: Octet, payload: seq<Octet>): seq<seq<Octet>> { Lines(OnRx(rx, Sub(cmd, payload)).1) }

  lemma OneLine(m: Message)
    requires m.Sub?
    ensures Lines([m]) == [Line(m.cmd, m.payload)]
  {
    assert [m][1..] == [];
    assert Lines([m]) == [Frame(m)] + Lines([]);
  }

  // ----- IS -----

  predicate Known(t: Octet) { t == 1 || t == 2 }

  function Named(t: Octet): Kind
    requires Known(t)
  {
    if t == 1 then Cfb else Ofb
  }

  /** An IV of eight octets for a method this end has is taken and acknowledged. */
  lemma IvIsAcknowledged(rx: Rx, t: Octet, iv: Block)
    requires Known(t) && Named(t) in rx.kinds
    ensures var r, k := OnRx(rx, Sub(0, [t, 1] + iv)).0, Named(t);
            && r.Fb(k) == InFb(Bits(true, true, true), Seeded(rx.Fb(k).stream, iv))
            && r.mode == Some(k) && r.Finds(k) && r.auto == rx.auto && r.input == rx.input && r.keyid == rx.keyid
    ensures Answers(rx, 0, [t, 1] + iv) == [Line(2, [t, 2])]
  {
    var data := [t, 1] + iv;
    assert data[1..] == [1] + iv && ([1] + iv)[1..] == iv;
    OneLine(Sub(2, [t, 2]));
  }

  /** Anything else about such a method is answered by IV_BAD and leaves the stream alone; an IV of the wrong
      length also fails the method, and a failed method ends automatic decryption. */
  lemma BadIvIsRefused(rx: Rx, t: Octet, data: seq<Octet>)
    requires Known(t) && Named(t) in rx.kinds && !(|data| == 9 && data[0] == 1)
    ensures var r, k := OnRx(rx, Sub(0, [t] + data)).0, Named(t);
            && r.Fb(k).stream == rx.Fb(k).stream && r.input == rx.input && r.keyid == rx.keyid
            && r.Fb(k).state == (if data != [] && data[0] == 1 then Failed else rx.Fb(k).state)
            && (r.Fb(k).state == Failed ==> !r.auto && r.mode == rx.mode)
            && (r.Fb(k).state != Failed ==> r.auto == rx.auto && r.mode == Some(k))
    ensures var r, k := OnRx(rx, Sub(0, [t] + data)).0, Named(t);
            Answers(rx, 0, [t] + data) == [Line(2, [t, 3])]
              + if r.Fb(k).state == SUCCESS && rx.auto then [Line(5, rx.keyid)] else []
  {
    hide Doubled;
    assert ([t] + data)[1..] == data;
    var (r, ms) := OnRx(rx, Sub(0, [t] + data));
    OneLine(Sub(2, [t, 3]));
    if |ms| == 2 {
      assert ms[1..] == [Sub(5, rx.keyid)];
      OneLine(Sub(5, rx.keyid));
    }
  }

  /** An IS about no type, an unknown type, or a method this end has not, is not answered. */
  lemma UnknownIsIgnored(rx: Rx, payload: seq<Octet>)
    requires payload == [] || !Known(payload[0]) || Named(payload[0]) !in rx.kinds
    ensures Answers(rx, 0, payload) == []
    ensures var r := OnRx(rx, Sub(0, payload)).0;
            r == rx.(peerEncrypts := rx.peerEncrypts +
                       if payload != [] && Known(payload[0]) then {Named(payload[0])} else {})
  {
    assert rx.peerEncrypts + {} == rx.peerEncrypts;
  }

  // ----- key ids -----

  /** A key id has been agreed on: one step of the handshake less. */
  function Agreed(p: Progress): Progress {
    if p.Failed? then Bits(true, true, false) else Bits(p.noSendIv, p.noRecvIv, false)
  }

  /** The key id that stays: [0] if that is what was sent, and none otherwise.  Without a method to judge
      it, an empty one changes nothing. */
  function Stays(id: seq<Octet>, was: seq<Octet>, ready: bool): seq<Octet> {
    if ready then (if id == [0] then [0] else []) else if id == [] then was else []
  }

  /** The key id that stays is sent back, unless it is no news. */
  predicate IsNews(id: seq<Octet>, was: seq<Octet>, ready: bool) { if ready then id != was else id != [] }

  predicate Receiving(rx: Rx) { rx.mode.Some? && rx.Finds(rx.mode.value) }

  predicate Sending(tx: Tx) { tx.mode.Some? && tx.Finds(tx.mode.value) }

  /** ENC_KEYID at the decrypting end. */
  lemma KeyidIsAnswered(rx: Rx, id: seq<Octet>)
    requires |id| <= 64
    ensures var r := OnRx(rx, Sub(7, id)).0;
            && r.keyid == Stays(id, rx.keyid, Receiving(rx))
            && r.mode == rx.mode && r.input == rx.input && r.auto == rx.auto
            && forall k :: r.Fb(k).stream == rx.Fb(k).stream && r.Fb(k).state ==
                 if id == [0] && Receiving(rx) && rx.mode == Some(k) then Agreed(rx.Fb(k).state) else rx.Fb(k).state
    ensures Answers(rx, 7, id) ==
            if IsNews(id, rx.keyid, Receiving(rx)) then [Line(8, Stays(id, rx.keyid, Receiving(rx)))] else []
  {
    hide Line;
    OneLine(Sub(8, Stays(id, rx.keyid, Receiving(rx))));
  }

  /** DEC_KEYID at the encrypting end: the same, and a key id that is no news may start the output. */
  lemma KeyidIsJudged(des: BlockCipher, server: bool, tx: Tx, id: seq<Octet>, feed: Block)
    requires |id| <= 64
    requires IsNews(id, tx.keyid, Sending(tx))
    ensures var t := OnTx(des, server, tx, Sub(8, id), feed);
            && t.log == tx.log + [Line(7, Stays(id, tx.keyid, Sending(tx)))]
            && t.keyid == Stays(id, tx.keyid, Sending(tx))
            && t.mode == tx.mode && t.output == tx.output && t.auto == tx.auto
            && forall k :: t.Fb(k).state ==
                 if id == [0] && Sending(tx) && tx.mode == Some(k) then Agreed(tx.Fb(k).state) else tx.Fb(k).state
  {
    hide Write, Line;
    var m := Sub(ENCRYPT_ENC_KEYID, Stays(id, tx.keyid, Sending(tx)));
    FrameIsLine(m);
    var u := if Sending(tx) && id == [0] then
        tx.With(tx.mode.value, tx.Fb(tx.mode.value).(state := Agreed(tx.Fb(tx.mode.value).state))).(keyid := [0])
      else tx.(keyid := []);
    WriteShape(des, u, m);
    OnDecKeyidNews(des, tx, id, feed, u, m);
  }

  lemma OnDecKeyidNews(des: BlockCipher, tx: Tx, id: seq<Octet>, feed: Block, u: Tx, m: Message)
    requires |id| <= 64 && IsNews(id, tx.keyid, Sending(tx))
    requires m == Sub(ENCRYPT_ENC_KEYID, Stays(id, tx.keyid, Sending(tx)))
    requires Sending(tx) && id == [0] ==>
               var k := tx.mode.value;
               u == tx.With(k, tx.Fb(k).(state := Agreed(tx.Fb(k).state))).(keyid := [0])
    requires !(Sending(tx) && id == [0]) ==> u == tx.(keyid := [])
    ensures OnDecKeyid(des, tx, id, feed) == Write(des, u, m)
  {
    hide Write, StartOutput;
  }

  /** No key id, where none is expected, changes nothing. */
  lemma NoKeyidIsNoNews(des: BlockCipher, server: bool, tx: Tx, feed: Block)
    requires !IsNews([], tx.keyid, Sending(tx))
    ensures OnTx(des, server, tx, Sub(8, []), feed) == tx
  {
    hide Write, StartOutput;
  }

  /** Of a key id, only the first 64 octets count, in either direction. */
  lemma LongKeyidsAreCut(des: BlockCipher, server: bool, tx: Tx, rx: Rx, id: seq<Octet>, more: seq<Octet>, feed: Block)
    requires |id| == 64
    ensures OnTx(des, server, tx, Sub(8, id + more), feed) == OnTx(des, server, tx, Sub(8, id), feed)
    ensures OnRx(rx, Sub(7, id + more)) == OnRx(rx, Sub(7, id))
  {
    hide Write, StartOutput;
    assert Clipped(id + more) == id;
  }

  // ----- REPLY -----

  /** IV_BAD wipes out the IV: the sender's stream starts from zeros. */
  lemma BadIvIsWipedOut(des: BlockCipher, server: bool, tx: Tx, t: Octet, more: seq<Octet>, feed: Block)
    requires Known(t) && tx.Finds(Named(t))
    ensures var k := Named(t);
            var fb := OnTx(des, server, tx, Sub(2, [t, 3] + more), feed).Fb(k);
            && fb.state == Failed && fb.tempFeed == ZERO_BLOCK && fb.stream.iv == ZERO_BLOCK
            && fb.stream.output == ZERO_BLOCK && fb.stream.index == 8
  {
    assert ([t, 3] + more)[1..] == [3] + more;
  }

  /** An acknowledgement that comes when the key id is agreed on already completes the handshake: key id 0 is
      proposed all the same, and automatic encryption starts the output. */
  lemma LateAcknowledgement(des: BlockCipher, server: bool, tx: Tx, t: Octet, feed: Block)
    requires Known(t) && tx.Finds(Named(t)) && tx.Fb(Named(t)).state == Bits(false, true, false)
    ensures var u, k := OnTx(des, server, tx, Sub(2, [t, 2]), feed), Named(t);
            && Complete(u, k) && u.keyid == [0] && u.auto == tx.auto
            && u.output == (if tx.auto then Some(k) else tx.output)
            && u.log == tx.log + [Line(7, [0])] + if tx.auto then [Line(3, [0])] else []
  {
    hide Write, StartOutput, Line, LastFrame;
    var k := Named(t);
    var fb := tx.Fb(k).(stream := Seeded(tx.Fb(k).stream, tx.Fb(k).tempFeed), state := SUCCESS);
    var w := tx.With(k, fb).(keyid := [0]);
    var m := Sub(ENCRYPT_ENC_KEYID, [0]);
    FrameIsLine(m);
    WriteShape(des, w, m);
    var v := Write(des, w, m).(mode := Some(k));
    assert w.Fb(k).state == SUCCESS && Write(des, w, m).Fb(k).state == SUCCESS && v.Fb(k).state == SUCCESS;
    assert [t, 2][1..] == [2];
    assert OnReply(des, tx, [t, 2], feed) == if v.auto then StartOutput(des, v, k, feed) else v;
    StartSays(des, v, k, feed);
    assert tx.log + [Line(7, [0])] + [] == tx.log + [Line(7, [0])];
  }

  // ----- SUPPORT -----

  /** An offer whose first common method has been negotiated before switches the output on again. */
  lemma OfferRestartsOutput(des: BlockCipher, server: bool, tx: Tx, types: seq<Octet>, k: Kind, feed: Block)
    requires Usable(tx.kinds, types) != [] && Usable(tx.kinds, types)[0] == k && tx.Fb(k).state == SUCCESS
    ensures var t := OnTx(des, server, tx, Sub(1, types), feed);
            t.output == Some(k) && t.mode == Some(k) && t.log == tx.log + [Line(3, tx.keyid)]
  {
    hide Write, StartOutput, Line, LastFrame, Usable;
    var usable := Usable(tx.kinds, types);
    var t := tx.(peerDecrypts := set j | j in usable);
    UsableIsKnown(tx.kinds, types, k);
    StartSays(des, t.(mode := Some(k)), k, feed);
  }

  lemma {:induction false} UsableIsKnown(kinds: seq<Kind>, types: seq<Octet>, k: Kind)
    requires k in Usable(kinds, types)
    ensures k in kinds
  {
    if types != [] && k in Usable(kinds, types[1..]) {
      UsableIsKnown(kinds, types[1..], k);
    }
  }

  // ----- requests -----

  /** A request to stop, once it is read, takes the output of the end that reads it back to clear text. */
  lemma AskedToStop(des: BlockCipher, key: Block, self: End, other: End, feed: Block)
    requires key != ZERO_BLOCK && Direction(des, key, self, other) && Direction(des, key, other, self)
    requires self.keyed && self.peer.tx.output.Some? && other.peer.tx.wire != []
    requires var m := Parse(Read(des, self.peer.rx, other.peer.tx.wire[0]).1); m.Sub? && m.cmd == 6
    ensures var (s, o) := Act(des, key, self, other, Receive(feed));
            SwitchedOff(des, key, self.peer.tx, s, o)
  {
    hide Direction, Drain, Write, Read, Parse;
    var (s, o) := Act(des, key, self, other, Receive(feed));
    WriteShape(des, self.peer.tx, Sub(ENCRYPT_END, []));
    ActKeeps(des, key, self, other, Receive(feed));
    InStepMeans(des, key, s, o, Cfb);
  }

  /** A request to start, once it is read by an end that is ready, switches its output on. */
  lemma AskedToStart(des: BlockCipher, key: Block, self: End, other: End, feed: Block, k: Kind)
    requires key != ZERO_BLOCK && Direction(des, key, self, other) && Direction(des, key, other, self)
    requires self.keyed && Complete(self.peer.tx, k) && other.peer.tx.wire != []
    requires var m := Parse(Read(des, self.peer.rx, other.peer.tx.wire[0]).1); m.Sub? && m.cmd == 5
    ensures var (s, o) := Act(des, key, self, other, Receive(feed));
            SwitchedOn(des, key, k, self.peer.tx, s, o)
  {
    hide Direction, Drain, StartOutput, LastFrame, Read, Parse;
    var (s, o) := Act(des, key, self, other, Receive(feed));
    CompleteKnows(des, key, self, other, k);
    StartSays(des, self.peer.tx, k, feed);
    ActKeeps(des, key, self, other, Receive(feed));
    InStepMeans(des, key, s, o, k);
  }

  /** What the user's requests to the other end say, and that they change nothing else. */
  lemma RequestsAreSaid(des: BlockCipher, key: Block, self: End, other: End)
    ensures var s := Act(des, key, self, other, AskEnd).0;
            s.peer.tx.log == self.peer.tx.log + [Line(6, [])] && s.peer.rx == self.peer.rx
            && s.peer.tx.output == self.peer.tx.output
    ensures var s := Act(des, key, self, other, AskStart).0;
            s.peer.tx.log == self.peer.tx.log
                             + (if self.peer.rx.mode.Some? then [Line(5, self.peer.rx.keyid)] else [])
            && s.peer.rx == self.peer.rx && s.peer.tx.output == self.peer.tx.output
  {
    hide Write, LastFrame;
    WriteShape(des, self.peer.tx, Sub(ENCRYPT_REQEND, []));
    WriteShape(des, self.peer.tx, Sub(ENCRYPT_REQSTART, self.peer.rx.keyid));
  }

  /** The first words of an end: its methods, and from a client that shall decrypt by itself a request. */
  lemma FirstWords(des: BlockCipher, server: bool, sends: seq<Kind>, gets: seq<Kind>, encrypt: bool, decrypt: bool)
    ensures var p := SendSupport(des, Initial(server, sends, gets, encrypt, decrypt));
            && p.tx.log == (if !server && decrypt then [Line(5, [])] else []) + [Line(1, Types(gets))]
            && p.tx.wire == p.tx.log && p.tx.auto == encrypt && p.tx.output == None && p.rx.input == None
  {
    hide Types;
    var p := Initial(server, sends, gets, encrypt, decrypt);
    OfferIsMadeOnce(des, p);
    FrameIsLine(Sub(1, Types(gets)));
    FrameIsLine(Sub(5, []));
  }
}
