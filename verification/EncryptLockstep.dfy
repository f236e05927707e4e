/** The invariant that ties the two ends of one direction of a Telnet connection together: what
    the receiver will know once it has read everything in transit is what the sender knows now. */
module EncryptLockstep {
  import opened Basics
  import opened FeedbackCipher
  import opened TelnetFrames
  import opened EncryptOption
  import opened EncryptSession

  /** The method the sender picks from the receiver's list: the first one it has itself. */
  function Chosen(sends: seq<Kind>, accepts: seq<Kind>): Option<Kind> {
    var usable := Usable(sends, Types(accepts));
    if usable == [] then None else Some(usable[0])
  }

  lemma {:induction false} UsableOnly(kinds: seq<Kind>, types: seq<Octet>)
    ensures forall k :: k in Usable(kinds, types) ==> k in kinds && TypeOf(k) in types
  {
    if types != [] {
      UsableOnly(kinds, types[1..]);
    }
  }

  lemma ChosenIsShared(sends: seq<Kind>, accepts: seq<Kind>)
    ensures Chosen(sends, accepts).Some? ==>
        Chosen(sends, accepts).value in sends && Chosen(sends, accepts).value in accepts
  {
    UsableOnly(sends, Types(accepts));
    var k := Chosen(sends, accepts);
    if k.Some? {
      assert k.value in Usable(sends, Types(accepts));
      var i :| 0 <= i < |accepts| && Types(accepts)[i] == TypeOf(k.value);
      assert accepts[i] == k.value;
    }
  }

  function Other(k: Kind): Kind { if k.Cfb? then Ofb else Cfb }

  function FreshStream(key: Block, keyed: bool): Stream {
    if keyed then Rekeyed(CLEARED, key) else CLEARED
  }

  function FreshOut(key: Block, keyed: bool): OutFb {
    OutFb(if keyed then key else ZERO_BLOCK, ZERO_BLOCK, false, Failed, FreshStream(key, keyed))
  }

  /** How far the handshake has come, read off the state bits of the sender. */
  datatype Stage = Idle | Waiting | IvSent | IvAcked | Ready

  function StageOf(tx: Tx): Stage {
    if tx.mode.None? then Idle else
      match tx.Fb(tx.mode.value).state
      case Failed => Idle
      case Bits(noSend, noRecv, noKeyid) =>
        if noSend then Waiting else if noRecv then IvSent else if noKeyid then IvAcked else Ready
  }

  predicate TxAt(key: Block, keyed: bool, k: Option<Kind>, tx: Tx) {
    var stage := StageOf(tx);
    if stage.Idle? then
      && tx.mode.None? && tx.output.None? && tx.keyid == [] && tx.peerDecrypts == {}
      && tx.cfb == FreshOut(key, keyed) && tx.ofb == FreshOut(key, keyed)
    else
      && k.Some? && tx.mode == k && tx.Finds(k.value)
      && tx.Fb(Other(k.value)) == FreshOut(key, keyed)
      && var fb := tx.Fb(k.value);
      && fb.key == FreshOut(key, keyed).key && fb.needStart == stage.Waiting?
      && keyed == !stage.Waiting?
      && (!stage.Ready? ==> tx.output.None?)
      && tx.keyid == (if stage.IvAcked? || stage.Ready? then KEYID_ZERO else [])
      && (stage.Waiting? ==> fb.state == IN_PROGRESS)
      && (stage.IvSent? ==> fb.state == Bits(false, true, true))
      && (stage.Waiting? || stage.IvSent? ==> fb.stream == FreshStream(key, keyed))
  }

  function IvPayload(k: Kind, iv: Block): seq<Octet> { [TypeOf(k), FB64_IV] + iv }

  /** What the sender has said and heard fits the stage it is in. */
  predicate Told(k: Option<Kind>, tx: Tx, got: seq<seq<Octet>>) {
    var stage := StageOf(tx);
    && Said(tx.log, ENCRYPT_IS) ==
         (if stage.Idle? || stage.Waiting? || k.None? then [] else [IvPayload(k.value, tx.Fb(k.value).tempFeed)])
    && Said(tx.log, ENCRYPT_ENC_KEYID) == (if stage.IvAcked? || stage.Ready? then [KEYID_ZERO] else [])
    && (Said(got, ENCRYPT_REPLY) != [] <==> stage.IvAcked? || stage.Ready?)
    && (Said(got, ENCRYPT_DEC_KEYID) != [] <==> stage.Ready?)
    && (k.Some? ==> (Said(got, ENCRYPT_SUPPORT) != [] <==> !stage.Idle?))
  }

  /** `d` is the receiver after everything in transit; `acked` says that the IV was acknowledged. */
  predicate InStep(key: Block, accepts: seq<Kind>, k: Option<Kind>, tx: Tx, acked: bool, d: Rx) {
    && d.kinds == accepts
    && d.log == tx.log
    && d.input == tx.output
    && (tx.output.Some? ==> tx.output == k && acked && Said(tx.log, ENCRYPT_IS) != [])
    && (k.Some? ==>
          if Said(tx.log, ENCRYPT_IS) == [] then
            d.mode.None? && d.Fb(k.value).stream == Rekeyed(CLEARED, key)
          else
            && d.mode == k && d.Finds(k.value)
            && d.Fb(k.value).stream ==
                 if acked then tx.Fb(k.value).stream else Seeded(Rekeyed(CLEARED, key), tx.Fb(k.value).tempFeed))
  }

  predicate Acked(got: seq<seq<Octet>>) { Said(got, ENCRYPT_REPLY) != [] }

  /** The sender's half of the invariant, for a receiver that will read `tx.wire` from `rx`. */
  predicate Sending(des: BlockCipher, key: Block, keyed: bool, accepts: seq<Kind>, tx: Tx, got: seq<seq<Octet>>,
                    rx: Rx) {
    var k := Chosen(tx.kinds, accepts);
    && TxAt(key, keyed, k, tx)
    && Told(k, tx, got)
    && InStep(key, accepts, k, tx, Acked(got), Drain(des, rx, tx.wire))
  }

  /** Nothing was said that the other direction listens to. */
  predicate Quiet(before: Tx, after: Tx) {
    && after.kinds == before.kinds
    && Said(after.log, ENCRYPT_SUPPORT) == Said(before.log, ENCRYPT_SUPPORT)
    && Said(after.log, ENCRYPT_REPLY) == Said(before.log, ENCRYPT_REPLY)
    && Said(after.log, ENCRYPT_DEC_KEYID) == Said(before.log, ENCRYPT_DEC_KEYID)
  }

  // ----- writing one message -----

  function LastFrame(des: BlockCipher, tx: Tx, m: Message): seq<Octet> {
    match tx.output
    case None => Frame(m)
    case Some(k) => Encrypt(k, des, tx.Fb(k).stream, Frame(m)).1
  }

  lemma WriteShape(des: BlockCipher, tx: Tx, m: Message)
    ensures var t := Write(des, tx, m);
            && t.wire == tx.wire + [LastFrame(des, tx, m)] && t.log == tx.log + [Frame(m)]
            && t.kinds == tx.kinds && t.peerDecrypts == tx.peerDecrypts && t.mode == tx.mode
            && t.output == tx.output && t.auto == tx.auto && t.keyid == tx.keyid
            && (forall j :: t.Fb(j) == tx.Fb(j).(stream := t.Fb(j).stream))
            && (forall j :: tx.output != Some(j) ==> t.Fb(j) == tx.Fb(j))
  {
  }

  /** The receiver that is in step accepts back the message, and its stream moves with the sender's. */
  lemma ReadBack(des: BlockCipher, key: Block, accepts: seq<Kind>, k: Option<Kind>, tx: Tx, acked: bool, d: Rx,
                 m: Message)
    requires InStep(key, accepts, k, tx, acked, d)
    ensures var t := Write(des, tx, m);
            var (r, plain) := Read(des, d, LastFrame(des, tx, m));
            && plain == Frame(m) && Parse(plain) == m && r.log == t.log
            && r == d.(log := r.log, cfb := r.cfb, ofb := r.ofb)
            && (k.Some? ==>
                  r.Fb(k.value).stream == (if tx.output.Some? then t else tx).Fb(k.value).stream
                  || (tx.output.None? && r.Fb(k.value).stream == d.Fb(k.value).stream))
  {
    ParseInvertsFrame(m);
    if tx.output.Some? {
      DecryptInverts(tx.output.value, des, tx.Fb(tx.output.value).stream, Frame(m));
    }
  }

  predicate Neutral(m: Message) {
    m.Data? || (m.cmd != ENCRYPT_IS && m.cmd != ENCRYPT_START && m.cmd != ENCRYPT_END)
  }

  lemma NeutralOnRx(r: Rx, m: Message)
    requires Neutral(m)
    ensures var s := OnRx(r, m).0;
            && s == r.(keyid := s.keyid, cfb := s.cfb, ofb := s.ofb)
            && s.cfb.stream == r.cfb.stream && s.ofb.stream == r.ofb.stream
  {
  }

  lemma WriteNeutral(des: BlockCipher, key: Block, accepts: seq<Kind>, k: Option<Kind>, tx: Tx, acked: bool, rx: Rx,
                     m: Message)
    requires InStep(key, accepts, k, tx, acked, Drain(des, rx, tx.wire)) && Neutral(m)
    ensures var t := Write(des, tx, m); InStep(key, accepts, k, t, acked, Drain(des, rx, t.wire))
  {
    var d := Drain(des, rx, tx.wire);
    WriteShape(des, tx, m);
    SaidWrite(des, tx, m, ENCRYPT_IS);
    DrainAppend(des, rx, tx.wire, LastFrame(des, tx, m));
    ReadBack(des, key, accepts, k, tx, acked, d, m);
    NeutralOnRx(Read(des, d, LastFrame(des, tx, m)).0, m);
  }

  lemma WriteStart(des: BlockCipher, key: Block, accepts: seq<Kind>, k: Option<Kind>, tx: Tx, acked: bool, rx: Rx,
                   payload: seq<Octet>)
    requires InStep(key, accepts, k, tx, acked, Drain(des, rx, tx.wire))
    requires k.Some? && acked && Said(tx.log, ENCRYPT_IS) != []
    ensures var t := Write(des, tx, Sub(ENCRYPT_START, payload)).(output := k, mode := k);
            InStep(key, accepts, k, t, acked, Drain(des, rx, t.wire))
  {
    var d := Drain(des, rx, tx.wire);
    var m := Sub(ENCRYPT_START, payload);
    WriteShape(des, tx, m);
    SaidWrite(des, tx, m, ENCRYPT_IS);
    DrainAppend(des, rx, tx.wire, LastFrame(des, tx, m));
    ReadBack(des, key, accepts, k, tx, acked, d, m);
  }

  lemma WriteEnd(des: BlockCipher, key: Block, accepts: seq<Kind>, k: Option<Kind>, tx: Tx, acked: bool, rx: Rx)
    requires InStep(key, accepts, k, tx, acked, Drain(des, rx, tx.wire))
    ensures var t := Write(des, tx, Sub(ENCRYPT_END, [])).(output := None);
            InStep(key, accepts, k, t, acked, Drain(des, rx, t.wire))
  {
    var d := Drain(des, rx, tx.wire);
    var m := Sub(ENCRYPT_END, []);
    WriteShape(des, tx, m);
    SaidWrite(des, tx, m, ENCRYPT_IS);
    DrainAppend(des, rx, tx.wire, LastFrame(des, tx, m));
    ReadBack(des, key, accepts, k, tx, acked, d, m);
  }

  /** The IV reaches the receiver before the sender uses it. */
  lemma WriteIv(des: BlockCipher, key: Block, accepts: seq<Kind>, k: Kind, tx: Tx, rx: Rx)
    requires InStep(key, accepts, Some(k), tx, false, Drain(des, rx, tx.wire))
    requires tx.output.None? && k in accepts && Said(tx.log, ENCRYPT_IS) == []
    ensures var t := Write(des, tx, Sub(ENCRYPT_IS, IvPayload(k, tx.Fb(k).tempFeed)));
            && InStep(key, accepts, Some(k), t, false, Drain(des, rx, t.wire))
            && Said(t.log, ENCRYPT_IS) == [IvPayload(k, tx.Fb(k).tempFeed)]
  {
    var d := Drain(des, rx, tx.wire);
    var payload := IvPayload(k, tx.Fb(k).tempFeed);
    var m := Sub(ENCRYPT_IS, payload);
    WriteShape(des, tx, m);
    SaidWrite(des, tx, m, ENCRYPT_IS);
    DrainAppend(des, rx, tx.wire, LastFrame(des, tx, m));
    ReadBack(des, key, accepts, Some(k), tx, false, d, m);
    var r := Read(des, d, LastFrame(des, tx, m)).0;
    assert payload[1..][1..] == tx.Fb(k).tempFeed && |payload[1..]| == 1 + BLOCK_SIZE && payload[1] == FB64_IV;
    assert KindOf(payload[0]) == Some(k);
    var r1 := r.(peerEncrypts := r.peerEncrypts + {k});
    var (fb, verdict) := FbIs(r1.Fb(k), payload[1..]);
    assert fb == InFb(IN_PROGRESS, Seeded(r1.Fb(k).stream, tx.Fb(k).tempFeed));
    assert OnIs(r, payload).0 == r1.With(k, fb).(mode := Some(k));
  }

  // ----- what each event at the sender preserves -----

  lemma SaidQuiet(des: BlockCipher, tx: Tx, m: Message)
    requires m.Data? || (m.cmd != ENCRYPT_SUPPORT && m.cmd != ENCRYPT_REPLY && m.cmd != ENCRYPT_DEC_KEYID)
    ensures Quiet(tx, Write(des, tx, m))
  {
    hide Write, Drain, Said;
    SaidWrite(des, tx, m, ENCRYPT_SUPPORT);
    SaidWrite(des, tx, m, ENCRYPT_REPLY);
    SaidWrite(des, tx, m, ENCRYPT_DEC_KEYID);
    WriteShape(des, tx, m);
  }

  /** Data, requests and the replies of the other direction. */
  lemma SendingNeutral(des: BlockCipher, key: Block, keyed: bool, accepts: seq<Kind>, tx: Tx, got: seq<seq<Octet>>,
                       rx: Rx, m: Message)
    requires Sending(des, key, keyed, accepts, tx, got, rx) && Neutral(m) && (m.Data? || m.cmd != ENCRYPT_ENC_KEYID)
    ensures Sending(des, key, keyed, accepts, Write(des, tx, m), got, rx)
  {
    hide Write, Drain, Said;
    var k := Chosen(tx.kinds, accepts);
    WriteNeutral(des, key, accepts, k, tx, Acked(got), rx, m);
    WriteShape(des, tx, m);
    SaidWrite(des, tx, m, ENCRYPT_IS);
    SaidWrite(des, tx, m, ENCRYPT_ENC_KEYID);
    var t := Write(des, tx, m);
    assert Said(t.log, ENCRYPT_IS) == Said(tx.log, ENCRYPT_IS)
        && Said(t.log, ENCRYPT_ENC_KEYID) == Said(tx.log, ENCRYPT_ENC_KEYID);
    assert t.cfb == t.Fb(Cfb) && t.ofb == t.Fb(Ofb);
    assert StageOf(t) == StageOf(tx) && TxAt(key, keyed, k, t);
  }

  lemma SendingStartOutput(des: BlockCipher, key: Block, keyed: bool, accepts: seq<Kind>, tx: Tx,
                           got: seq<seq<Octet>>, rx: Rx, feed: Block)
    requires Sending(des, key, keyed, accepts, tx, got, rx) && key != ZERO_BLOCK && tx.mode.Some?
    ensures var t := StartOutput(des, tx, tx.mode.value, feed);
            Sending(des, key, keyed, accepts, t, got, rx) && Quiet(tx, t)
  {
    hide Write, Drain, Said;
    var k := Chosen(tx.kinds, accepts);
    if StageOf(tx).Ready? {
      var m := Sub(ENCRYPT_START, tx.keyid);
      WriteStart(des, key, accepts, k, tx, Acked(got), rx, tx.keyid);
      WriteShape(des, tx, m);
      SaidWrite(des, tx, m, ENCRYPT_IS);
      SaidWrite(des, tx, m, ENCRYPT_ENC_KEYID);
      SaidQuiet(des, tx, m);
    } else {
      assert StartOutput(des, tx, tx.mode.value, feed) == tx;
    }
  }

  lemma SendingEnd(des: BlockCipher, key: Block, keyed: bool, accepts: seq<Kind>, tx: Tx, got: seq<seq<Octet>>, rx: Rx)
    requires Sending(des, key, keyed, accepts, tx, got, rx)
    ensures Sending(des, key, keyed, accepts, SendEnd(des, tx), got, rx) && Quiet(tx, SendEnd(des, tx))
  {
    hide Write, Drain, Said;
    if tx.output.Some? {
      var m := Sub(ENCRYPT_END, []);
      WriteEnd(des, key, accepts, Chosen(tx.kinds, accepts), tx, Acked(got), rx);
      WriteShape(des, tx, m);
      SaidWrite(des, tx, m, ENCRYPT_IS);
      SaidWrite(des, tx, m, ENCRYPT_ENC_KEYID);
      SaidQuiet(des, tx, m);
    }
  }

  /** fb64_start with a valid key sends the IV, and the receiver will have it. */
  lemma SendingIv(des: BlockCipher, key: Block, accepts: seq<Kind>, tx: Tx, got: seq<seq<Octet>>, rx: Rx, k: Kind,
                  feed: Block)
    requires Chosen(tx.kinds, accepts) == Some(k) && key != ZERO_BLOCK
    requires tx.output.None? && tx.keyid == [] && k in tx.peerDecrypts
    requires tx.Fb(k) == FreshOut(key, true).(state := tx.Fb(k).state, tempFeed := tx.Fb(k).tempFeed)
    requires tx.Fb(k).state == Failed || tx.Fb(k).state == IN_PROGRESS
    requires tx.Fb(Other(k)) == FreshOut(key, true)
    requires InStep(key, accepts, Some(k), tx, false, Drain(des, rx, tx.wire))
    requires Said(tx.log, ENCRYPT_IS) == [] && Said(tx.log, ENCRYPT_ENC_KEYID) == []
    requires Said(got, ENCRYPT_REPLY) == [] && Said(got, ENCRYPT_DEC_KEYID) == [] && Said(got, ENCRYPT_SUPPORT) != []
    ensures var (t, state) := Start(des, tx, k, feed);
            && Sending(des, key, true, accepts, t.(mode := Some(k)), got, rx) && Quiet(tx, t)
            && state == Bits(false, true, true)
  {
    hide Write, Drain, Said, Usable;
    ChosenIsShared(tx.kinds, accepts);
    var sent := Bits(false, true, true);
    var u := tx.With(k, tx.Fb(k).(tempFeed := feed, state := sent));
    var m := Sub(ENCRYPT_IS, IvPayload(k, feed));
    assert InStep(key, accepts, Some(k), u, false, Drain(des, rx, u.wire));
    WriteIv(des, key, accepts, k, u, rx);
    WriteShape(des, u, m);
    SaidWrite(des, u, m, ENCRYPT_ENC_KEYID);
    SaidQuiet(des, u, m);
    var t := Write(des, u, m);
    assert Start(des, tx, k, feed) == (t, sent);
    assert t.Fb(k) == u.Fb(k) && t.Fb(Other(k)) == u.Fb(Other(k)) == FreshOut(key, true);
    assert TxAt(key, true, Some(k), t.(mode := Some(k)));
    assert Told(Some(k), t.(mode := Some(k)), got);
    assert Drain(des, rx, t.(mode := Some(k)).wire) == Drain(des, rx, t.wire);
    assert Quiet(tx, t);
  }

  // ----- what each message that reaches the sender preserves -----

  /** Hearing something the sender does not count leaves it where it is. */
  lemma SendingHears(des: BlockCipher, key: Block, keyed: bool, accepts: seq<Kind>, tx: Tx, got: seq<seq<Octet>>,
                     rx: Rx, plain: seq<Octet>)
    requires Sending(des, key, keyed, accepts, tx, got, rx)
    requires var m := Parse(plain);
             m.Data? || (m.cmd != ENCRYPT_SUPPORT && m.cmd != ENCRYPT_REPLY && m.cmd != ENCRYPT_DEC_KEYID)
    ensures Sending(des, key, keyed, accepts, tx, got + [plain], rx)
  {
    SaidAppend(got, plain, ENCRYPT_SUPPORT);
    SaidAppend(got, plain, ENCRYPT_REPLY);
    SaidAppend(got, plain, ENCRYPT_DEC_KEYID);
  }

  /** Without a key the sender only notes that it has to start later. */
  lemma SendingWaits(des: BlockCipher, key: Block, accepts: seq<Kind>, u: Tx, got: seq<seq<Octet>>, rx: Rx, k: Kind)
    requires Chosen(u.kinds, accepts) == Some(k) && u.Finds(k)
    requires u.mode.None? && u.output.None? && u.keyid == [] && u.cfb == FreshOut(key, false)
        && u.ofb == FreshOut(key, false)
    requires InStep(key, accepts, Some(k), u, false, Drain(des, rx, u.wire))
    requires Said(u.log, ENCRYPT_IS) == [] && Said(u.log, ENCRYPT_ENC_KEYID) == []
    requires Said(got, ENCRYPT_REPLY) == [] && Said(got, ENCRYPT_DEC_KEYID) == [] && Said(got, ENCRYPT_SUPPORT) != []
    ensures var t := u.With(k, FreshOut(key, false).(needStart := true, state := IN_PROGRESS)).(mode := Some(k));
            Sending(des, key, false, accepts, t, got, rx) && Quiet(u, t)
  {
    hide Drain, Said, Usable;
    var t := u.With(k, FreshOut(key, false).(needStart := true, state := IN_PROGRESS)).(mode := Some(k));
    assert StageOf(t).Waiting? && TxAt(key, false, Some(k), t) && Told(Some(k), t, got);
  }

  lemma SendingSupport(des: BlockCipher, key: Block, keyed: bool, accepts: seq<Kind>, tx: Tx, got: seq<seq<Octet>>,
                       rx: Rx, plain: seq<Octet>, feed: Block)
    requires Sending(des, key, keyed, accepts, tx, got, rx) && key != ZERO_BLOCK
    requires Parse(plain) == Sub(ENCRYPT_SUPPORT, Types(accepts)) && Said(got, ENCRYPT_SUPPORT) == []
    ensures var t := OnSupport(des, tx, Types(accepts), feed);
            Sending(des, key, keyed, accepts, t, got + [plain], rx) && Quiet(tx, t)
  {
    hide Write, Drain, Said, Usable;
    SaidAppend(got, plain, ENCRYPT_SUPPORT);
    SaidAppend(got, plain, ENCRYPT_REPLY);
    SaidAppend(got, plain, ENCRYPT_DEC_KEYID);
    ChosenIsShared(tx.kinds, accepts);
    var usable := Usable(tx.kinds, Types(accepts));
    var k := Chosen(tx.kinds, accepts);
    var u := tx.(peerDecrypts := set k | k in usable);
    if k.None? {
      assert u == tx && OnSupport(des, tx, Types(accepts), feed) == tx;
    } else {
      assert StageOf(tx).Idle? && usable[0] in usable && u.Finds(k.value);
      assert u.Fb(k.value) == FreshOut(key, keyed);
      var got' := got + [plain];
      if keyed {
        SendingIv(des, key, accepts, u, got', rx, k.value, feed);
        assert OnSupport(des, tx, Types(accepts), feed) == Start(des, u, k.value, feed).0.(mode := k);
      } else {
        assert OnSupport(des, tx, Types(accepts), feed)
            == u.With(k.value, FreshOut(key, false).(needStart := true, state := IN_PROGRESS)).(mode := k);
        SendingWaits(des, key, accepts, u, got', rx, k.value);
      }
    }
  }

  /** Where an IV_OK takes the sender: the acknowledged IV enters its stream. */
  function AfterIvOk(tx: Tx, k: Kind): Tx {
    var fb := tx.Fb(k);
    tx.With(k, fb.(stream := Seeded(fb.stream, fb.tempFeed), state := Bits(false, false, true))).(keyid := KEYID_ZERO)
  }

  lemma IvOkReply(des: BlockCipher, tx: Tx, k: Kind, feed: Block)
    requires tx.Finds(k) && tx.mode == Some(k) && tx.Fb(k).state == Bits(false, true, true)
    ensures OnReply(des, tx, [TypeOf(k), FB64_IV_OK], feed)
            == Write(des, AfterIvOk(tx, k), Sub(ENCRYPT_ENC_KEYID, KEYID_ZERO))
  {
    hide Write;
    assert [TypeOf(k), FB64_IV_OK][1..] == [FB64_IV_OK];
    WriteShape(des, AfterIvOk(tx, k), Sub(ENCRYPT_ENC_KEYID, KEYID_ZERO));
  }

  lemma SendingReply(des: BlockCipher, key: Block, keyed: bool, accepts: seq<Kind>, tx: Tx, got: seq<seq<Octet>>,
                     rx: Rx, plain: seq<Octet>, k: Kind, feed: Block)
    requires Sending(des, key, keyed, accepts, tx, got, rx)
    requires Parse(plain) == Sub(ENCRYPT_REPLY, [TypeOf(k), FB64_IV_OK])
    requires StageOf(tx).IvSent? && Chosen(tx.kinds, accepts) == Some(k)
    ensures var t := OnReply(des, tx, [TypeOf(k), FB64_IV_OK], feed);
            Sending(des, key, keyed, accepts, t, got + [plain], rx) && Quiet(tx, t)
  {
    hide Write, Drain, Said, Usable;
    SaidAppend(got, plain, ENCRYPT_SUPPORT);
    SaidAppend(got, plain, ENCRYPT_REPLY);
    SaidAppend(got, plain, ENCRYPT_DEC_KEYID);
    var u := AfterIvOk(tx, k);
    var m := Sub(ENCRYPT_ENC_KEYID, KEYID_ZERO);
    var t := Write(des, u, m);
    IvOkReply(des, tx, k, feed);
    var got' := got + [plain];
    assert InStep(key, accepts, Some(k), u, Acked(got'), Drain(des, rx, u.wire));
    WriteNeutral(des, key, accepts, Some(k), u, Acked(got'), rx, m);
    WriteShape(des, u, m);
    SaidWrite(des, u, m, ENCRYPT_IS);
    SaidWrite(des, u, m, ENCRYPT_ENC_KEYID);
    SaidQuiet(des, u, m);
    assert t.Fb(k) == u.Fb(k) && t.Fb(Other(k)) == u.Fb(Other(k)) == tx.Fb(Other(k));
    assert TxAt(key, keyed, Some(k), t) && Told(Some(k), t, got') && Quiet(tx, t);
  }

  lemma SendingDecKeyid(des: BlockCipher, key: Block, keyed: bool, accepts: seq<Kind>, tx: Tx, got: seq<seq<Octet>>,
                        rx: Rx, plain: seq<Octet>, feed: Block)
    requires Sending(des, key, keyed, accepts, tx, got, rx) && key != ZERO_BLOCK
    requires Parse(plain) == Sub(ENCRYPT_DEC_KEYID, KEYID_ZERO) && StageOf(tx).IvAcked?
    ensures var t := OnDecKeyid(des, tx, KEYID_ZERO, feed);
            Sending(des, key, keyed, accepts, t, got + [plain], rx) && Quiet(tx, t)
  {
    hide Write, Drain, Said, Usable, StartOutput;
    SaidAppend(got, plain, ENCRYPT_SUPPORT);
    SaidAppend(got, plain, ENCRYPT_REPLY);
    SaidAppend(got, plain, ENCRYPT_DEC_KEYID);
    var k := tx.mode.value;
    var t := tx.With(k, tx.Fb(k).(state := SUCCESS));
    assert tx.Fb(k).state == Bits(false, false, true);
    assert t == tx.With(k, tx.Fb(k).(state := SUCCESS)).(keyid := KEYID_ZERO);
    assert OnDecKeyid(des, tx, KEYID_ZERO, feed) == if t.auto then StartOutput(des, t, k, feed) else t;
    var got' := got + [plain];
    assert StageOf(t).Ready? && TxAt(key, keyed, Some(k), t) && Told(Some(k), t, got');
    assert InStep(key, accepts, Some(k), t, Acked(got'), Drain(des, rx, t.wire));
    SendingStartOutput(des, key, keyed, accepts, t, got', rx, feed);
  }

  lemma SendingRequestStart(des: BlockCipher, key: Block, keyed: bool, accepts: seq<Kind>, tx: Tx,
                            got: seq<seq<Octet>>, rx: Rx, server: bool, feed: Block)
    requires Sending(des, key, keyed, accepts, tx, got, rx) && key != ZERO_BLOCK
    ensures var t := OnRequestStart(des, tx, server, feed);
            Sending(des, key, keyed, accepts, t, got, rx) && Quiet(tx, t)
  {
    if tx.mode.Some? {
      SendingStartOutput(des, key, keyed, accepts, tx, got, rx, feed);
    }
  }

  /** The session key arrives at the sender; a start that was waiting for it goes ahead. */
  lemma SendingKey(des: BlockCipher, key: Block, accepts: seq<Kind>, tx: Tx, got: seq<seq<Octet>>, rx: Rx,
                   feedCfb: Block, feedOfb: Block)
    requires Sending(des, key, false, accepts, tx, got, rx) && key != ZERO_BLOCK
    ensures var t := FbSession(des, FbSession(des, tx, Cfb, key, feedCfb), Ofb, key, feedOfb);
            Sending(des, key, true, accepts, t, got, rx) && Quiet(tx, t)
  {
    hide Write, Drain, Said, Usable;
    var u := tx.(cfb := KeyedOut(tx.cfb, key).(needStart := false), ofb := KeyedOut(tx.ofb, key).(needStart := false));
    if StageOf(tx).Idle? {
      assert FbSession(des, FbSession(des, tx, Cfb, key, feedCfb), Ofb, key, feedOfb) == u;
      assert TxAt(key, true, Chosen(tx.kinds, accepts), u);
    } else {
      var k := tx.mode.value;
      var feed := if k.Cfb? then feedCfb else feedOfb;
      assert tx.cfb.key == ZERO_BLOCK && KeyedOut(tx.Fb(k), key).stream == FreshStream(key, true);
      SendingIv(des, key, accepts, u, got, rx, k, feed);
      var (t, state) := Start(des, u, k, feed);
      KeyThenIv(des, tx, k, key, feedCfb, feedOfb);
      assert t.mode == Some(k) by {
        WriteShape(des, u.With(k, u.Fb(k).(tempFeed := feed, state := state)), Sub(ENCRYPT_IS, IvPayload(k, feed)));
      }
      assert t.(mode := Some(k)) == t;
    }
  }

  /** Only one method was waiting, so the order in which both get the key does not matter. */
  lemma KeyThenIv(des: BlockCipher, tx: Tx, k: Kind, key: Block, feedCfb: Block, feedOfb: Block)
    requires tx.output.None? && tx.Fb(k).needStart && !tx.Fb(Other(k)).needStart
    ensures var u := tx.(cfb := KeyedOut(tx.cfb, key).(needStart := false),
                         ofb := KeyedOut(tx.ofb, key).(needStart := false));
            FbSession(des, FbSession(des, tx, Cfb, key, feedCfb), Ofb, key, feedOfb)
            == Start(des, u, k, if k.Cfb? then feedCfb else feedOfb).0
  {
  }
}
