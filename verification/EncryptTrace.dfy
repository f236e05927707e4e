/** One end of a Telnet connection whose peer may send anything at all: encryption of the output
    is never switched on before the negotiation of that method has really been completed. */
module EncryptTrace {
  import opened Basics
  import opened FeedbackCipher
  import opened TelnetFrames
  import opened EncryptOption
  import opened EncryptLockstep
  import opened EncryptSession

  datatype Input =
    | Hear(frame: seq<Octet>, feed: Block)
    | Key(key: Block, feedCfb: Block, feedOfb: Block)
    | Offer
    | UserOn(feed: Block)
    | UserOff
    | Say(bytes: seq<Octet>)

  function React(des: BlockCipher, p: Peer, i: Input): Peer {
    match i
    case Hear(frame, feed) => Deliver(des, p, frame, feed)
    case Key(key, f, g) => SessionKey(des, p, key, f, g)
    case Offer => SendSupport(des, p)
    case UserOn(feed) => UserStart(des, p, feed)
    case UserOff => p.(tx := SendEnd(des, p.tx))
    case Say(bytes) => p.(tx := Write(des, p.tx, Data(bytes)))
  }

  function After(des: BlockCipher, p: Peer, inputs: seq<Input>): Peer
    decreases |inputs|
  {
    if inputs == [] then p else React(des, After(des, p, inputs[..|inputs| - 1]), inputs[|inputs| - 1])
  }

  // ----- what an observer of the connection can see -----

  /** How many IVs of method k have been sent. */
  function IvsSent(log: seq<seq<Octet>>, k: Kind): nat
    decreases |log|
  {
    if log == [] then 0 else IvsSent(log[..|log| - 1], k) + OneIv(Parse(log[|log| - 1]), k)
  }

  function OneIv(m: Message, k: Kind): nat {
    if m.Sub? && m.cmd == ENCRYPT_IS && m.payload != [] && m.payload[0] == TypeOf(k) then 1 else 0
  }

  function Heard(des: BlockCipher, p: Peer, i: Input): Message {
    match i
    case Hear(frame, _) => Parse(Read(des, p.rx, frame).1)
    case _ => Data([])
  }

  /** A reply for method k, when k is a method this end may use. */
  predicate RepliesFor(k: Kind, tx: Tx, m: Message) {
    m.Sub? && m.cmd == ENCRYPT_REPLY && m.payload != [] && m.payload[0] == TypeOf(k) && tx.Finds(k)
  }

  predicate AcknowledgesIv(k: Kind, tx: Tx, m: Message) {
    RepliesFor(k, tx, m) && |m.payload| > 1 && m.payload[1] == FB64_IV_OK
  }

  /** Anything else said about the IV of method k is a failure of the negotiation. */
  predicate Fails(k: Kind, tx: Tx, m: Message) {
    RepliesFor(k, tx, m) && !AcknowledgesIv(k, tx, m)
  }

  predicate AcceptsKeyid(k: Kind, tx: Tx, m: Message) {
    m.Sub? && m.cmd == ENCRYPT_DEC_KEYID && Clipped(m.payload) == KEYID_ZERO && tx.mode == Some(k) && tx.Finds(k)
  }

  predicate SendsIv(k: Kind, before: Tx, after: Tx) {
    IvsSent(after.log, k) > IvsSent(before.log, k) && after.Fb(k).key != ZERO_BLOCK
  }

  /** What has happened to method k since its negotiation last failed. */
  datatype Seen = Seen(iv: bool, ok: bool, keyid: bool)

  const NOTHING := Seen(false, false, false)

  function Observe(seen: Seen, k: Kind, before: Tx, m: Message, after: Tx): Seen {
    if Fails(k, before, m) then NOTHING
    else if AcknowledgesIv(k, before, m) then seen.(ok := seen.iv)
    else
      var s := if AcceptsKeyid(k, before, m) then seen.(keyid := true) else seen;
      if SendsIv(k, before, after) then s.(iv := true, ok := false) else s
  }

  function Watch(des: BlockCipher, p: Peer, inputs: seq<Input>, k: Kind): Seen
    decreases |inputs|
  {
    if inputs == [] then NOTHING else
      var n := |inputs| - 1;
      var q := After(des, p, inputs[..n]);
      Observe(Watch(des, p, inputs[..n], k), k, q.tx, Heard(des, q, inputs[n]), React(des, q, inputs[n]).tx)
  }

  // ----- the state bits never claim more than was seen -----

  predicate Fits(tx: Tx, k: Kind, seen: Seen) {
    match tx.Fb(k).state
    case Failed => true
    case Bits(noSend, noRecv, noKeyid) =>
      && (!noSend ==> seen.iv) && (!noSend && !noRecv ==> seen.ok) && (!noKeyid ==> seen.keyid)
  }

  /** Output of method k is switched on only with every bit clear. */
  predicate OpensOnSuccess(before: Tx, after: Tx, k: Kind) {
    after.output == Some(k) && before.output != Some(k) ==> after.Fb(k).state == SUCCESS
  }

  /** `after` keeps the state, the key and the IV count of method k, up to messages it wrote. */
  predicate SameFor(k: Kind, before: Tx, after: Tx) {
    && after.Fb(k).state == before.Fb(k).state && after.Fb(k).key == before.Fb(k).key
    && IvsSent(after.log, k) == IvsSent(before.log, k)
  }

  lemma IvsSentWrite(des: BlockCipher, tx: Tx, m: Message, k: Kind)
    ensures IvsSent(Write(des, tx, m).log, k) == IvsSent(tx.log, k) + OneIv(m, k)
    ensures OneIv(m, k) == 0 ==> SameFor(k, tx, Write(des, tx, m))
    ensures Write(des, tx, m).output == tx.output
  {
    WriteShape(des, tx, m);
    ParseInvertsFrame(m);
    var t := Write(des, tx, m);
    assert t.log[..|t.log| - 1] == tx.log;
  }

  /** fb64_start either leaves method k alone, or only waits, or sends an IV under a valid key. */
  lemma StartEffect(des: BlockCipher, tx: Tx, j: Kind, feed: Block, k: Kind)
    ensures var (t, state) := Start(des, tx, j, feed);
            && state == t.Fb(j).state && t.output == tx.output && t.keyid == tx.keyid
            && (SameFor(k, tx, t)
                || (j == k && IvsSent(t.log, k) == IvsSent(tx.log, k)
                    && t.Fb(k).state == Revived(tx.Fb(k).state) && tx.Fb(k).state.Failed?)
                || (j == k && SendsIv(k, tx, t)
                    && t.Fb(k).state == Revived(tx.Fb(k).state).(noSendIv := false, noRecvIv := true)))
  {
    hide Write, IvsSent;
    var fb := tx.Fb(j);
    var state := Revived(fb.state);
    if (fb.state.Failed? || state.noSendIv) && fb.key != ZERO_BLOCK {
      var sent := state.(noSendIv := false, noRecvIv := true);
      var u := tx.With(j, fb.(tempFeed := feed, state := sent));
      var m := Sub(ENCRYPT_IS, [TypeOf(j), FB64_IV] + feed);
      IvsSentWrite(des, u, m, k);
      IvsSentWrite(des, u, m, j);
      WriteShape(des, u, m);
    }
  }

  lemma StartFits(des: BlockCipher, tx: Tx, j: Kind, feed: Block, k: Kind, seen: Seen)
    requires Fits(tx, k, seen)
    ensures var t := Start(des, tx, j, feed).0;
            Fits(t, k, if SendsIv(k, tx, t) then seen.(iv := true, ok := false) else seen) && OpensOnSuccess(tx, t, k)
  {
    hide Start, IvsSent;
    StartEffect(des, tx, j, feed, k);
  }

  lemma StartOutputFits(des: BlockCipher, tx: Tx, j: Kind, feed: Block, k: Kind, seen: Seen)
    requires Fits(tx, k, seen)
    ensures var t := StartOutput(des, tx, j, feed);
            Fits(t, k, if SendsIv(k, tx, t) then seen.(iv := true, ok := false) else seen) && OpensOnSuccess(tx, t, k)
  {
    hide Start, Write, IvsSent;
    StartFits(des, tx, j, feed, k, seen);
    StartEffect(des, tx, j, feed, k);
    var (t, state) := Start(des, tx, j, feed);
    var m := Sub(ENCRYPT_START, t.keyid);
    IvsSentWrite(des, t, m, k);
    IvsSentWrite(des, t, m, j);
    WriteShape(des, t, m);
  }

  /** What every handler has to show about method k. */
  predicate Tracks(before: Tx, m: Message, after: Tx, k: Kind, seen: Seen) {
    Fits(after, k, Observe(seen, k, before, m, after)) && OpensOnSuccess(before, after, k)
  }

  lemma SupportTracks(des: BlockCipher, tx: Tx, m: Message, feed: Block, k: Kind, seen: Seen)
    requires Fits(tx, k, seen) && m.Sub? && m.cmd == ENCRYPT_SUPPORT
    ensures Tracks(tx, m, OnSupport(des, tx, m.payload, feed), k, seen)
  {
    hide Start, StartOutput, IvsSent, Usable;
    var usable := Usable(tx.kinds, m.payload);
    var t := tx.(peerDecrypts := set j | j in usable);
    if usable != [] && t.Finds(usable[0]) {
      var j := usable[0];
      StartFits(des, t, j, feed, k, seen);
      StartEffect(des, t, j, feed, k);
      var (u, state) := Start(des, t, j, feed);
      if state == SUCCESS {
        StartOutputFits(des, u.(mode := Some(j)), j, feed, k, seen);
      }
    }
  }

  lemma ReplyTracks(des: BlockCipher, tx: Tx, m: Message, feed: Block, k: Kind, seen: Seen)
    requires Fits(tx, k, seen) && m.Sub? && m.cmd == ENCRYPT_REPLY
    ensures Tracks(tx, m, OnReply(des, tx, m.payload, feed), k, seen)
  {
    hide Write, StartOutput, Start, IvsSent;
    if m.payload != [] && KindOf(m.payload[0]).Some? && tx.Finds(KindOf(m.payload[0]).value) {
      var j := KindOf(m.payload[0]).value;
      assert TypeOf(j) == m.payload[0];
      var (t, state) := FbReply(des, tx, j, m.payload[1..]);
      FbReplyEffect(des, tx, j, m.payload[1..], k);
      var u := t.(mode := Some(j));
      if state == SUCCESS && u.auto {
        SuccessStays(des, u, j, feed, k);
      }
    }
  }

  /** A reply about method j changes the state of no other method and sends no IV. */
  lemma FbReplyEffect(des: BlockCipher, tx: Tx, j: Kind, data: seq<Octet>, k: Kind)
    ensures var (t, state) := FbReply(des, tx, j, data);
            && state == t.Fb(j).state && t.output == tx.output && t.Fb(k).key == tx.Fb(k).key
            && IvsSent(t.log, k) == IvsSent(tx.log, k)
            && (j != k ==> t.Fb(k).state == tx.Fb(k).state)
            && (if data != [] && data[0] == FB64_IV_OK
                then (var r := Revived(tx.Fb(j).state); state == r.(noRecvIv := false))
                else state.Failed?)
  {
    hide Write, IvsSent;
    var fb := tx.Fb(j);
    if data != [] && data[0] == FB64_IV_OK {
      var r := Revived(fb.state);
      var state := r.(noRecvIv := false);
      var t := tx.With(j, fb.(stream := Seeded(fb.stream, fb.tempFeed), state := state)).(keyid := KEYID_ZERO);
      IvsSentWrite(des, t, Sub(ENCRYPT_ENC_KEYID, KEYID_ZERO), k);
      WriteShape(des, t, Sub(ENCRYPT_ENC_KEYID, KEYID_ZERO));
    }
  }

  /** Starting a method whose negotiation is complete sends no IV and keeps every state. */
  lemma SuccessStays(des: BlockCipher, tx: Tx, j: Kind, feed: Block, k: Kind)
    requires tx.Fb(j).state == SUCCESS
    ensures SameFor(k, tx, StartOutput(des, tx, j, feed)) && OpensOnSuccess(tx, StartOutput(des, tx, j, feed), k)
  {
    hide Write, IvsSent;
    var m := Sub(ENCRYPT_START, tx.keyid);
    IvsSentWrite(des, tx, m, k);
    IvsSentWrite(des, tx, m, j);
    WriteShape(des, tx, m);
  }

  lemma DecKeyidTracks(des: BlockCipher, tx: Tx, m: Message, feed: Block, k: Kind, seen: Seen)
    requires Fits(tx, k, seen) && m.Sub? && m.cmd == ENCRYPT_DEC_KEYID
    ensures Tracks(tx, m, OnDecKeyid(des, tx, m.payload, feed), k, seen)
  {
    hide Write, StartOutput, Start, IvsSent, Clipped, FbKeyid;
    var id := Clipped(m.payload);
    IvsSentWrite(des, tx.(keyid := []), Sub(ENCRYPT_ENC_KEYID, []), k);
    if tx.mode.Some? && tx.Finds(tx.mode.value) && id != [] {
      KeyidTracks(des, tx, m, feed, k, seen);
    } else {
      WriteShape(des, tx.(keyid := []), Sub(ENCRYPT_ENC_KEYID, []));
    }
  }

  /** A key id reaches the method that is in use: only key id 0 clears its bit. */
  lemma KeyidTracks(des: BlockCipher, tx: Tx, m: Message, feed: Block, k: Kind, seen: Seen)
    requires Fits(tx, k, seen) && m.Sub? && m.cmd == ENCRYPT_DEC_KEYID
    requires tx.mode.Some? && tx.Finds(tx.mode.value) && Clipped(m.payload) != []
    ensures Tracks(tx, m, OnDecKeyid(des, tx, m.payload, feed), k, seen)
  {
    hide Write, StartOutput, Start, IvsSent, Clipped;
    var id := Clipped(m.payload);
    var j := tx.mode.value;
    var (state, left) := FbKeyid(tx.Fb(j).state, id);
    var t := tx.With(j, tx.Fb(j).(state := state)).(keyid := left);
    var after := OnDecKeyid(des, tx, m.payload, feed);
    assert SameFor(k, t, after) && OpensOnSuccess(t, after, k) by {
      IvsSentWrite(des, t, Sub(ENCRYPT_ENC_KEYID, left), k);
      if state == SUCCESS {
        SuccessStays(des, t, j, feed, k);
      }
    }
    assert !SendsIv(k, tx, after);
  }

  lemma RequestStartTracks(des: BlockCipher, tx: Tx, m: Message, server: bool, feed: Block, k: Kind, seen: Seen)
    requires Fits(tx, k, seen) && m.Sub? && m.cmd == ENCRYPT_REQSTART
    ensures Tracks(tx, m, OnRequestStart(des, tx, server, feed), k, seen)
  {
    hide Write, StartOutput, Start, IvsSent;
    if tx.mode.Some? {
      StartOutputFits(des, tx, tx.mode.value, feed, k, seen);
    }
  }

  lemma EndTracks(des: BlockCipher, tx: Tx, m: Message, k: Kind, seen: Seen)
    requires Fits(tx, k, seen) && (m == Data([]) || (m.Sub? && m.cmd == ENCRYPT_REQEND))
    ensures Tracks(tx, m, SendEnd(des, tx), k, seen)
  {
    hide Write, IvsSent;
    IvsSentWrite(des, tx, Sub(ENCRYPT_END, []), k);
    WriteShape(des, tx, Sub(ENCRYPT_END, []));
  }

  lemma OnTxTracks(des: BlockCipher, server: bool, tx: Tx, m: Message, feed: Block, k: Kind, seen: Seen)
    requires Fits(tx, k, seen)
    ensures Tracks(tx, m, OnTx(des, server, tx, m, feed), k, seen)
  {
    hide OnSupport, OnReply, OnDecKeyid, OnRequestStart, SendEnd, IvsSent, Tracks, Fits, Observe;
    if m.Data? || m.cmd !in {ENCRYPT_SUPPORT, ENCRYPT_REPLY, ENCRYPT_DEC_KEYID, ENCRYPT_REQSTART, ENCRYPT_REQEND} {
      StillTracks(tx, m, k, seen);
    } else if m.cmd == ENCRYPT_SUPPORT {
      SupportTracks(des, tx, m, feed, k, seen);
    } else if m.cmd == ENCRYPT_REPLY {
      ReplyTracks(des, tx, m, feed, k, seen);
    } else if m.cmd == ENCRYPT_DEC_KEYID {
      DecKeyidTracks(des, tx, m, feed, k, seen);
    } else if m.cmd == ENCRYPT_REQSTART {
      RequestStartTracks(des, tx, m, server, feed, k, seen);
    } else {
      EndTracks(des, tx, m, k, seen);
    }
  }

  lemma StillTracks(tx: Tx, m: Message, k: Kind, seen: Seen)
    requires Fits(tx, k, seen) && (m.Data? || (m.cmd != ENCRYPT_REPLY && m.cmd != ENCRYPT_DEC_KEYID))
    ensures Tracks(tx, m, tx, k, seen)
  {
  }

  // ----- the answers of the input direction, and the local events -----

  /** Messages the input direction sends back never carry an IV. */
  lemma {:induction false} AnswersSame(des: BlockCipher, tx: Tx, ms: seq<Message>, k: Kind)
    requires forall m :: m in ms ==> m.Sub? && m.cmd != ENCRYPT_IS
    ensures var t := WriteAll(des, tx, ms);
            && SameFor(k, tx, t) && t.output == tx.output && t.kinds == tx.kinds
            && t.peerDecrypts == tx.peerDecrypts && t.mode == tx.mode
    decreases |ms|
  {
    hide Write, IvsSent;
    if ms != [] {
      IvsSentWrite(des, tx, ms[0], k);
      WriteShape(des, tx, ms[0]);
      assert ms[0] in ms;
      AnswersSame(des, Write(des, tx, ms[0]), ms[1..], k);
    }
  }

  lemma AnswersAreNotIvs(rx: Rx, m: Message)
    ensures forall a :: a in OnRx(rx, m).1 ==> a.Sub? && a.cmd != ENCRYPT_IS
  {
  }

  lemma HearTracks(des: BlockCipher, p: Peer, frame: seq<Octet>, feed: Block, k: Kind, seen: Seen)
    requires Fits(p.tx, k, seen)
    ensures Tracks(p.tx, Heard(des, p, Hear(frame, feed)), Deliver(des, p, frame, feed).tx, k, seen)
  {
    hide OnTx, OnRx, WriteAll, IvsSent, Read;
    var (r, plain) := Read(des, p.rx, frame);
    var m := Parse(plain);
    AnswersAreNotIvs(r, m);
    AnswersSame(des, p.tx, OnRx(r, m).1, k);
    OnTxTracks(des, p.server, WriteAll(des, p.tx, OnRx(r, m).1), m, feed, k, seen);
  }

  lemma SessionTracks(des: BlockCipher, tx: Tx, key: Block, f: Block, g: Block, k: Kind, seen: Seen)
    requires Fits(tx, k, seen)
    ensures Tracks(tx, Data([]), FbSession(des, FbSession(des, tx, Cfb, key, f), Ofb, key, g), k, seen)
  {
    hide Start, IvsSent;
    FbSessionEffect(des, tx, Cfb, key, f, k, seen);
    var t := FbSession(des, tx, Cfb, key, f);
    var seen' := if k == Cfb && SendsIv(k, tx, t) then seen.(iv := true, ok := false) else seen;
    FbSessionEffect(des, t, Ofb, key, g, k, seen');
  }

  lemma FbSessionEffect(des: BlockCipher, tx: Tx, j: Kind, key: Block, feed: Block, k: Kind, seen: Seen)
    requires Fits(tx, k, seen)
    ensures var t := FbSession(des, tx, j, key, feed);
            && Fits(t, k, if SendsIv(k, tx, t) then seen.(iv := true, ok := false) else seen)
            && t.output == tx.output
            && (j != k ==> SameFor(k, tx, t))
  {
    hide Start, IvsSent;
    var fb := KeyedOut(tx.Fb(j), key);
    if fb.needStart {
      var u := tx.With(j, fb.(needStart := false));
      StartFits(des, u, j, feed, k, seen);
      StartEffect(des, u, j, feed, k);
    }
  }

  lemma ReactTracks(des: BlockCipher, p: Peer, i: Input, k: Kind, seen: Seen)
    requires Fits(p.tx, k, seen)
    ensures Tracks(p.tx, Heard(des, p, i), React(des, p, i).tx, k, seen)
  {
    hide Write, IvsSent, FbSession, Deliver, StartOutput, SendEnd, Read, Frame;
    match i
    case Hear(frame, feed) => HearTracks(des, p, frame, feed, k, seen);
    case Key(key, f, g) => SessionTracks(des, p.tx, key, f, g, k, seen);
    case Offer =>
      var ask := Sub(ENCRYPT_REQSTART, p.rx.keyid);
      var offer := Sub(ENCRYPT_SUPPORT, Types(p.rx.kinds));
      IvsSentWrite(des, p.tx, ask, k);
      IvsSentWrite(des, p.tx, offer, k);
      IvsSentWrite(des, Write(des, p.tx, ask), offer, k);
    case UserOn(feed) =>
      if p.tx.mode.Some? {
        StartOutputFits(des, p.tx, p.tx.mode.value, feed, k, seen);
      }
    case UserOff => EndTracks(des, p.tx, Data([]), k, seen);
    case Say(bytes) => IvsSentWrite(des, p.tx, Data(bytes), k);
  }

  // ----- main results -----

  lemma {:induction false} WatchFits(des: BlockCipher, p: Peer, inputs: seq<Input>, k: Kind)
    requires p.tx.Fb(k).state.Failed?
    ensures Fits(After(des, p, inputs).tx, k, Watch(des, p, inputs, k))
    decreases |inputs|
  {
    hide React, Heard, Observe;
    if inputs != [] {
      var n := |inputs| - 1;
      WatchFits(des, p, inputs[..n], k);
      ReactTracks(des, After(des, p, inputs[..n]), inputs[n], k, Watch(des, p, inputs[..n], k));
    }
  }

  predicate IvAt(des: BlockCipher, p: Peer, inputs: seq<Input>, k: Kind, i: nat)
    requires i < |inputs|
  {
    var q := After(des, p, inputs[..i]);
    SendsIv(k, q.tx, React(des, q, inputs[i]).tx)
  }

  predicate OkAt(des: BlockCipher, p: Peer, inputs: seq<Input>, k: Kind, i: nat)
    requires i < |inputs|
  {
    var q := After(des, p, inputs[..i]);
    AcknowledgesIv(k, q.tx, Heard(des, q, inputs[i]))
  }

  predicate KeyidAt(des: BlockCipher, p: Peer, inputs: seq<Input>, k: Kind, i: nat)
    requires i < |inputs|
  {
    var q := After(des, p, inputs[..i]);
    AcceptsKeyid(k, q.tx, Heard(des, q, inputs[i]))
  }

  predicate FailAt(des: BlockCipher, p: Peer, inputs: seq<Input>, k: Kind, i: nat)
    requires i < |inputs|
  {
    var q := After(des, p, inputs[..i]);
    Fails(k, q.tx, Heard(des, q, inputs[i]))
  }

  predicate NoFailureAfter(des: BlockCipher, p: Peer, inputs: seq<Input>, k: Kind, i: nat) {
    forall j :: i < j < |inputs| ==> !FailAt(des, p, inputs, k, j)
  }

  /** What the three flags stand for, as events of the run. */
  ghost predicate Meaning(des: BlockCipher, p: Peer, inputs: seq<Input>, k: Kind, seen: Seen) {
    && (seen.iv ==> exists a: nat :: a < |inputs| && IvAt(des, p, inputs, k, a) && NoFailureAfter(des, p, inputs, k, a))
    && (seen.ok ==>
          exists a: nat, b: nat :: a < b < |inputs| && IvAt(des, p, inputs, k, a) && OkAt(des, p, inputs, k, b)
              && NoFailureAfter(des, p, inputs, k, a))
    && (seen.keyid ==>
        exists c: nat :: c < |inputs| && KeyidAt(des, p, inputs, k, c) && NoFailureAfter(des, p, inputs, k, c))
  }

  lemma Longer(des: BlockCipher, p: Peer, inputs: seq<Input>, k: Kind, i: nat)
    requires 0 < |inputs| && i < |inputs| - 1
    ensures var short := inputs[..|inputs| - 1];
            && IvAt(des, p, short, k, i) == IvAt(des, p, inputs, k, i)
            && OkAt(des, p, short, k, i) == OkAt(des, p, inputs, k, i)
            && KeyidAt(des, p, short, k, i) == KeyidAt(des, p, inputs, k, i)
            && FailAt(des, p, short, k, i) == FailAt(des, p, inputs, k, i)
            && (NoFailureAfter(des, p, short, k, i) && !FailAt(des, p, inputs, k, |inputs| - 1)
                ==> NoFailureAfter(des, p, inputs, k, i))
  {
    hide After, React, Heard;
    var short := inputs[..|inputs| - 1];
    forall j: nat | j < |short| ensures FailAt(des, p, short, k, j) == FailAt(des, p, inputs, k, j) {
      assert short[..j] == inputs[..j];
    }
    assert short[..i] == inputs[..i];
    if NoFailureAfter(des, p, short, k, i) && !FailAt(des, p, inputs, k, |inputs| - 1) {
      forall j | i < j < |inputs| ensures !FailAt(des, p, inputs, k, j) {
        if j < |short| {
          assert !FailAt(des, p, short, k, j);
        }
      }
    }
  }

  lemma {:induction false} WatchMeans(des: BlockCipher, p: Peer, inputs: seq<Input>, k: Kind)
    ensures Meaning(des, p, inputs, k, Watch(des, p, inputs, k))
    decreases |inputs|
  {
    hide After, React, Heard, AcknowledgesIv, AcceptsKeyid, SendsIv, IvAt, OkAt, KeyidAt, FailAt, NoFailureAfter;
    if inputs != [] {
      var n := |inputs| - 1;
      var short := inputs[..n];
      WatchMeans(des, p, short, k);
      var seen := Watch(des, p, short, k);
      LastEvent(des, p, inputs, k);
      if !FailAt(des, p, inputs, k, n) {
        if seen.iv {
          var a: nat :| a < n && IvAt(des, p, short, k, a) && NoFailureAfter(des, p, short, k, a);
          Longer(des, p, inputs, k, a);
        }
        if seen.ok {
          var a: nat, b: nat :| a < b < n && IvAt(des, p, short, k, a) && OkAt(des, p, short, k, b)
              && NoFailureAfter(des, p, short, k, a);
          Longer(des, p, inputs, k, a);
          Longer(des, p, inputs, k, b);
        }
        if seen.keyid {
          var c: nat :| c < n && KeyidAt(des, p, short, k, c) && NoFailureAfter(des, p, short, k, c);
          Longer(des, p, inputs, k, c);
        }
      }
    }
  }

  /** The last step of the observer, in terms of the events at the last position. */
  lemma LastEvent(des: BlockCipher, p: Peer, inputs: seq<Input>, k: Kind)
    requires inputs != []
    ensures var n := |inputs| - 1;
            var seen, now := Watch(des, p, inputs[..n], k), Watch(des, p, inputs, k);
            && NoFailureAfter(des, p, inputs, k, n)
            && (if FailAt(des, p, inputs, k, n) then now == NOTHING
                else
                  && (now.iv ==> seen.iv || IvAt(des, p, inputs, k, n))
                  && (now.ok ==> seen.ok || (seen.iv && OkAt(des, p, inputs, k, n)))
                  && (now.keyid ==> seen.keyid || KeyidAt(des, p, inputs, k, n)))
  {
    hide After, React, Heard;
  }

  /** Whatever the other end sends, output is switched to method k only when an IV was sent under
      a valid key and then acknowledged, and key id 0 was accepted, all since k last failed. */
  lemma EncryptsOnlyAfterHandshake(des: BlockCipher, p: Peer, inputs: seq<Input>, i: Input, k: Kind)
    requires p.tx.Fb(k).state.Failed?
    requires After(des, p, inputs).tx.output != Some(k) && After(des, p, inputs + [i]).tx.output == Some(k)
    ensures var all := inputs + [i];
            && (exists a: nat, b: nat ::
                  a < b < |all| && IvAt(des, p, all, k, a) && OkAt(des, p, all, k, b)
                      && NoFailureAfter(des, p, all, k, a))
            && (exists c: nat :: c < |all| && KeyidAt(des, p, all, k, c) && NoFailureAfter(des, p, all, k, c))
  {
    hide React, Heard, Observe, IvAt, OkAt, KeyidAt, NoFailureAfter;
    var all := inputs + [i];
    assert all[..|all| - 1] == inputs;
    WatchFits(des, p, inputs, k);
    ReactTracks(des, After(des, p, inputs), i, k, Watch(des, p, inputs, k));
    WatchMeans(des, p, all, k);
    assert Watch(des, p, all, k) == Seen(true, true, true);
  }
}
