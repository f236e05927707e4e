/** The ENCRYPT option as the C code runs it: records and file-level variables updated in place,
    messages assembled in fixed buffers.  Every routine is proved to do to the state exactly what
    the function of the same name in EncryptOption says. */
module EncryptEndpoint {
  import opened Basics
  import opened FeedbackCipher
  import opened StreamInfo
  import opened TelnetFrames
  import opened EncryptOption

  function Twice(b: Octet): seq<Octet> { if b == IAC then [IAC, IAC] else [b] }

  lemma {:induction false} DoubledAppend(s: seq<Octet>, b: Octet)
    ensures Doubled(s + [b]) == Doubled(s) + Twice(b)
  {
    if s == [] {
      assert s + [b] == [b] && [b][1..] == [];
      assert Doubled([b]) == Twice(b) + Doubled([]);
    } else {
      var t := s + [b];
      assert t[0] == s[0] && t[1..] == s[1..] + [b];
      DoubledAppend(s[1..], b);
      assert Doubled(t) == Twice(s[0]) + Doubled(t[1..]);
      assert Doubled(s) == Twice(s[0]) + Doubled(s[1..]);
    }
  }

  /** Copy data into the buffer from position `at` on, doubling every IAC. */
  method FillDoubled(buf: array<Octet>, at: nat, data: seq<Octet>) returns (p: nat)
    requires at + 2 * |data| <= buf.Length
    modifies buf
    ensures at <= p <= at + 2 * |data|
    ensures buf[..at] == old(buf[..at]) && buf[at..p] == Doubled(data)
  {
    p := at;
    for x := 0 to |data|
      invariant at <= p <= at + 2 * x
      invariant buf[..at] == old(buf[..at]) && buf[at..p] == Doubled(data[..x])
    {
      DoubledAppend(data[..x], data[x]);
      assert data[..x + 1] == data[..x] + [data[x]];
      buf[p] := data[x];
      p := p + 1;
      if data[x] == IAC {
        buf[p] := IAC;
        p := p + 1;
      }
    }
    assert data[..|data|] == data;
  }

  lemma {:induction false} UsableAppend(kinds: seq<Kind>, types: seq<Octet>, t: Octet)
    ensures var k := KindOf(t);
            Usable(kinds, types + [t]) == Usable(kinds, types) + if k.Some? && k.value in kinds then [k.value] else []
  {
    if types == [] {
      assert types + [t] == [t] && [t][1..] == [];
    } else {
      UsableAppend(kinds, types[1..], t);
      assert (types + [t])[1..] == types[1..] + [t];
    }
  }

  lemma WriteTwo(des: BlockCipher, tx: Tx, a: Message, b: Message)
    ensures WriteAll(des, tx, [a, b]) == Write(des, Write(des, tx, a), b)
  {
    hide Write;
    assert [a, b][1..] == [b] && [b][1..] == [];
    assert WriteAll(des, Write(des, tx, a), [b]) == WriteAll(des, Write(des, Write(des, tx, a), b), []);
  }

  /** struct fb, for one method. */
  class Fb {
    var key: Block
    var tempFeed: Block
    var needStart: bool
    var stateOut: Progress
    var stateIn: Progress
    const outStream: Stinfo
    const inStream: Stinfo

    constructor (des: BlockCipher)
      ensures key == tempFeed == ZERO_BLOCK && !needStart && stateOut == stateIn == Failed
      ensures fresh(this) && fresh(outStream) && fresh(inStream) && outStream != inStream
      ensures outStream.Value() == inStream.Value() == CLEARED
      ensures outStream.des == inStream.des == des
    {
      key, tempFeed, needStart, stateOut, stateIn := ZERO_BLOCK, ZERO_BLOCK, false, Failed, Failed;
      outStream := new Stinfo(des);
      inStream := new Stinfo(des);
    }

    ghost function Out(): OutFb
      reads this, outStream
    {
      OutFb(key, tempFeed, needStart, stateOut, outStream.Value())
    }

    ghost function In(): InFb
      reads this, inStream
    {
      InFb(stateIn, inStream.Value())
    }
  }

  class Endpoint {
    const des: BlockCipher
    const server: bool
    const encrypts: seq<Kind>
    const decrypts: seq<Kind>
    const cfb: Fb
    const ofb: Fb
    const feedBuffer: array<Octet>
    const keyidBuffer: array<Octet>
    const startBuffer: array<Octet>

    var encryptMode: Option<Kind>
    var encryptOutput: Option<Kind>
    var autoencrypt: bool
    var peerDecrypts: set<Kind>
    var keyidOut: seq<Octet>

    var decryptMode: Option<Kind>
    var decryptInput: Option<Kind>
    var autodecrypt: bool
    var peerEncrypts: set<Kind>
    var keyidIn: seq<Octet>

    var net: seq<seq<Octet>>
    ghost var written: seq<seq<Octet>>
    ghost var read: seq<seq<Octet>>

    ghost const Repr: set<object>

    /** The parts are all different, and a key id is never longer than the buffers allow. */
    ghost predicate Valid()
      reads this
    {
      && Repr == {this, cfb, ofb, cfb.outStream, cfb.inStream, ofb.outStream, ofb.inStream, feedBuffer, keyidBuffer,
          startBuffer}
      && cfb != ofb
      && cfb.outStream != cfb.inStream && cfb.outStream != ofb.outStream && cfb.outStream != ofb.inStream
      && cfb.inStream != ofb.outStream && cfb.inStream != ofb.inStream && ofb.outStream != ofb.inStream
      && cfb.outStream.des == cfb.inStream.des == ofb.outStream.des == ofb.inStream.des == des
      && feedBuffer.Length == 64 && keyidBuffer.Length == 133 && startBuffer.Length == 72
      && |keyidOut| <= 1 && |keyidIn| <= 1
    }

    ghost function OutState(): Tx
      reads this, cfb, ofb, cfb.outStream, ofb.outStream
    {
      Tx(encrypts, cfb.Out(), ofb.Out(), peerDecrypts, encryptMode, encryptOutput, autoencrypt, keyidOut, written, net)
    }

    ghost function InState(): Rx
      reads this, cfb, ofb, cfb.inStream, ofb.inStream
    {
      Rx(decrypts, cfb.In(), ofb.In(), peerEncrypts, decryptMode, decryptInput, autodecrypt, keyidIn, read)
    }

    /** encrypt_init */
    constructor (des: BlockCipher, server: bool, encrypts: seq<Kind>, decrypts: seq<Kind>, auto: bool, autod: bool)
      ensures Valid() && fresh(Repr)
      ensures OutState() == Initial(server, encrypts, decrypts, auto, autod).tx
      ensures InState() == Initial(server, encrypts, decrypts, auto, autod).rx
      ensures this.server == server && this.des == des
    {
      this.des, this.server, this.encrypts, this.decrypts := des, server, encrypts, decrypts;
      var c := new Fb(des);
      var o := new Fb(des);
      var f, k, t := new Octet[64], new Octet[133], new Octet[72];
      cfb, ofb, feedBuffer, keyidBuffer, startBuffer := c, o, f, k, t;
      encryptMode, encryptOutput, autoencrypt, peerDecrypts, keyidOut := None, None, auto, {}, [];
      decryptMode, decryptInput, autodecrypt, peerEncrypts, keyidIn := None, None, autod, {}, [];
      net, written, read := [], [], [];
      Repr := {this, c, o, c.outStream, c.inStream, o.outStream, o.inStream, f, k, t};
    }

    function Of(k: Kind): Fb { if k.Cfb? then cfb else ofb }

    /** (*encrypt_output) (buffer, length) */
    method Encipher(bytes: array<Octet>)
      requires Valid()
      modifies cfb.outStream, ofb.outStream, bytes
      ensures encryptOutput.None? ==> bytes[..] == old(bytes[..])
      ensures encryptOutput.Some? ==>
        Encrypt(encryptOutput.value, des, old(Of(encryptOutput.value).outStream.Value()), old(bytes[..]))
        == (Of(encryptOutput.value).outStream.Value(), bytes[..])
      ensures encryptOutput != Some(Cfb) ==> cfb.outStream.Value() == old(cfb.outStream.Value())
      ensures encryptOutput != Some(Ofb) ==> ofb.outStream.Value() == old(ofb.outStream.Value())
    {
      assert bytes[..bytes.Length] == bytes[..];
      if encryptOutput == Some(Cfb) {
        cfb.outStream.CfbEncrypt(bytes, bytes.Length);
      } else if encryptOutput == Some(Ofb) {
        ofb.outStream.OfbEncrypt(bytes, bytes.Length);
      }
      assert bytes[..bytes.Length] == bytes[..];
    }

    /** net_write: the octets pass through the output routine when there is one. */
    method NetWrite(frame: seq<Octet>, ghost m: Message)
      requires Valid() && frame == Frame(m)
      modifies this, cfb.outStream, ofb.outStream
      ensures Valid() && OutState() == Write(des, old(OutState()), m) && InState() == old(InState())
    {
      hide Frame, Encrypt;
      var bytes := new Octet[|frame|](i requires 0 <= i < |frame| => frame[i]);
      assert bytes[..] == frame;
      Encipher(bytes);
      written := written + [frame];
      net := net + [bytes[..]];
    }

    /** Assemble a suboption in one of the buffers and write it. */
    method SendSub(buf: array<Octet>, cmd: Octet, payload: seq<Octet>)
      requires Valid() && buf in Repr && 2 * |payload| + 6 <= buf.Length
      modifies this, cfb.outStream, ofb.outStream, buf
      ensures Valid() && OutState() == Write(des, old(OutState()), Sub(cmd, payload)) && InState() == old(InState())
    {
      hide Write;
      var frame := Assemble(buf, cmd, payload);
      NetWrite(frame, Sub(cmd, payload));
    }

    /** fb64_start (DIR_ENCRYPT) */
    method FbStart(k: Kind, feed: Block) returns (state: Progress)
      requires Valid()
      modifies Repr
      ensures Valid() && (OutState(), state) == Start(des, old(OutState()), k, feed) && InState() == old(InState())
    {
      hide Write;
      var fb := Of(k);
      state := fb.stateOut;
      if state.Failed? {
        state := IN_PROGRESS;
      } else if !state.noSendIv {
        return;
      }
      if fb.key == ZERO_BLOCK {
        fb.needStart := true;
        fb.stateOut := state;
        return;
      }
      state := state.(noSendIv := false, noRecvIv := true);
      fb.tempFeed := feed;
      fb.stateOut := state;
      SendSub(feedBuffer, ENCRYPT_IS, [TypeOf(k), FB64_IV] + feed);
    }

    /** encrypt_start_output */
    method EncryptStartOutput(k: Kind, feed: Block)
      requires Valid()
      modifies Repr
      ensures Valid() && OutState() == StartOutput(des, old(OutState()), k, feed) && InState() == old(InState())
    {
      hide Write, Start;
      if k in encrypts && k in peerDecrypts {
        var state := FbStart(k, feed);
        if state == SUCCESS {
          SendSub(startBuffer, ENCRYPT_START, keyidOut);
          encryptOutput := Some(k);
          encryptMode := Some(k);
        }
      }
    }

    /** encrypt_send_end */
    method EncryptSendEnd()
      requires Valid()
      modifies Repr
      ensures Valid() && OutState() == SendEnd(des, old(OutState())) && InState() == old(InState())
    {
      hide Write;
      if encryptOutput.Some? {
        SendSub(startBuffer, ENCRYPT_END, []);
        encryptOutput := None;
      }
    }

    /** encrypt_support: scan the list of the other end for the types both ends know. */
    method EncryptSupport(typelist: seq<Octet>, feed: Block)
      requires Valid()
      modifies Repr
      ensures Valid() && OutState() == OnSupport(des, old(OutState()), typelist, feed) && InState() == old(InState())
    {
      hide Write, Start, StartOutput;
      var useType;
      peerDecrypts, useType := ScanTypes(encrypts, typelist);
      if useType.Some? && useType.value in encrypts && useType.value in peerDecrypts {
        var state := FbStart(useType.value, feed);
        if state.Bits? {
          encryptMode := useType;
          if state == SUCCESS {
            EncryptStartOutput(useType.value, feed);
          }
        }
      }
    }

    /** fb64_reply, with the saving of the key id that encrypt_send_keyid does for it */
    method FbReplied(k: Kind, data: seq<Octet>) returns (state: Progress)
      requires Valid()
      modifies Repr
      ensures Valid() && (OutState(), state) == FbReply(des, old(OutState()), k, data) && InState() == old(InState())
    {
      hide Write;
      var fb := Of(k);
      state := Failed;
      if data != [] && data[0] == FB64_IV_OK {
        fb.outStream.StreamIv(fb.tempFeed);
        state := if fb.stateOut.Failed? then IN_PROGRESS else fb.stateOut;
        state := state.(noRecvIv := false);
        fb.stateOut := state;
        keyidOut := KEYID_ZERO;
        SendSub(keyidBuffer, ENCRYPT_ENC_KEYID, KEYID_ZERO);
      } else {
        if data != [] && data[0] == FB64_IV_BAD {
          fb.tempFeed := ZERO_BLOCK;
          fb.outStream.StreamIv(fb.tempFeed);
        }
        fb.stateOut := state;
      }
    }

    /** encrypt_reply */
    method EncryptReply(data: seq<Octet>, feed: Block)
      requires Valid()
      modifies Repr
      ensures Valid() && OutState() == OnReply(des, old(OutState()), data, feed) && InState() == old(InState())
    {
      hide Write, FbReply, StartOutput;
      if data == [] {
        return;
      }
      var k := KindOf(data[0]);
      if k.None? || k.value !in encrypts || k.value !in peerDecrypts {
        return;
      }
      var state := FbReplied(k.value, data[1..]);
      if state.Failed? {
        autoencrypt := false;
      } else {
        encryptMode := k;
        if state == SUCCESS && autoencrypt {
          EncryptStartOutput(k.value, feed);
        }
      }
    }

    /** fb64_keyid (DIR_ENCRYPT) */
    method FbKeyidOut(k: Kind, id: seq<Octet>) returns (state: Progress)
      requires Valid()
      modifies this, Of(k)
      ensures Valid() && InState() == old(InState())
      ensures var (st, left) := FbKeyid(old(OutState()).Fb(k).state, id);
              state == st && OutState() == old(OutState()).With(k, old(OutState()).Fb(k).(state := st)).(keyid := left)
    {
      var fb := Of(k);
      state := fb.stateOut;
      keyidOut := [];
      if id == KEYID_ZERO {
        if state.Failed? {
          state := IN_PROGRESS;
        }
        state := state.(noKeyid := false);
        fb.stateOut := state;
        keyidOut := id;
      }
    }

    /** encrypt_dec_keyid */
    method EncryptDecKeyid(received: seq<Octet>, feed: Block)
      requires Valid()
      modifies Repr
      ensures Valid() && OutState() == OnDecKeyid(des, old(OutState()), received, feed) && InState() == old(InState())
    {
      hide Write, StartOutput, Clipped, FbKeyid;
      var id := Clipped(received);
      if encryptMode.None? || encryptMode.value !in encrypts || encryptMode.value !in peerDecrypts {
        if id == [] {
          return;
        }
        keyidOut := [];
      } else if id == [] {
        if keyidOut == [] {
          return;
        }
        keyidOut := [];
      } else {
        var k := encryptMode.value;
        var same := id == keyidOut;
        var state := FbKeyidOut(k, id);
        if same {
          if state == SUCCESS && autoencrypt {
            EncryptStartOutput(k, feed);
          }
          return;
        }
      }
      SendSub(keyidBuffer, ENCRYPT_ENC_KEYID, keyidOut);
    }

    /** encrypt_request_start */
    method EncryptRequestStart(feed: Block)
      requires Valid()
      modifies Repr
      ensures Valid() && OutState() == OnRequestStart(des, old(OutState()), server, feed) && InState() == old(InState())
    {
      hide StartOutput;
      if encryptMode.None? {
        if server {
          autoencrypt := true;
        }
      } else {
        EncryptStartOutput(encryptMode.value, feed);
      }
    }

    /** fb64_is: the verdict goes back in a REPLY. */
    method FbReceived(k: Kind, data: seq<Octet>)
      requires Valid()
      modifies Repr
      ensures Valid()
      ensures var (fb, verdict) := FbIs(old(InState()).Fb(k), data);
              && InState() == old(InState()).With(k, fb)
              && OutState() == Write(des, old(OutState()), Sub(ENCRYPT_REPLY, [TypeOf(k), verdict]))
    {
      hide Write;
      var fb := Of(k);
      if data != [] && data[0] == FB64_IV && |data| == 1 + BLOCK_SIZE {
        fb.inStream.StreamIv(data[1..]);
        fb.stateIn := IN_PROGRESS;
        SendSub(feedBuffer, ENCRYPT_REPLY, [TypeOf(k), FB64_IV_OK]);
      } else {
        if data != [] && data[0] == FB64_IV {
          fb.stateIn := Failed;
        }
        SendSub(feedBuffer, ENCRYPT_REPLY, [TypeOf(k), FB64_IV_BAD]);
      }
    }

    /** encrypt_is */
    method EncryptIs(data: seq<Octet>)
      requires Valid()
      modifies Repr
      ensures Valid() && InState() == OnIs(old(InState()), data).0
      ensures OutState() == WriteAll(des, old(OutState()), OnIs(old(InState()), data).1)
    {
      hide Write, FbIs;
      if data == [] {
        return;
      }
      var k := KindOf(data[0]);
      if k.None? {
        return;
      }
      peerEncrypts := peerEncrypts + {k.value};
      if k.value !in decrypts {
        return;
      }
      FbReceived(k.value, data[1..]);
      if Of(k.value).stateIn.Failed? {
        autodecrypt := false;
      } else {
        decryptMode := k;
        if Of(k.value).stateIn == SUCCESS && autodecrypt {
          ghost var verdict := FbIs(old(InState()).Fb(k.value), data[1..]).1;
          ghost var answer := Sub(ENCRYPT_REPLY, [TypeOf(k.value), verdict]);
          WriteTwo(des, old(OutState()), answer, Sub(ENCRYPT_REQSTART, keyidIn));
          SendSub(startBuffer, ENCRYPT_REQSTART, keyidIn);
        }
      }
    }

    /** fb64_keyid (DIR_DECRYPT) */
    method FbKeyidIn(k: Kind, id: seq<Octet>)
      requires Valid()
      modifies this, Of(k)
      ensures Valid() && OutState() == old(OutState())
      ensures var (st, left) := FbKeyid(old(InState()).Fb(k).state, id);
              InState() == old(InState()).With(k, old(InState()).Fb(k).(state := st)).(keyid := left)
    {
      var fb := Of(k);
      keyidIn := [];
      if id == KEYID_ZERO {
        var state := if fb.stateIn.Failed? then IN_PROGRESS else fb.stateIn;
        fb.stateIn := state.(noKeyid := false);
        keyidIn := id;
      }
    }

    /** encrypt_enc_keyid */
    method EncryptEncKeyid(received: seq<Octet>)
      requires Valid()
      modifies Repr
      ensures Valid() && InState() == OnEncKeyid(old(InState()), received).0
      ensures OutState() == WriteAll(des, old(OutState()), OnEncKeyid(old(InState()), received).1)
    {
      hide Write, Clipped, FbKeyid;
      var id := Clipped(received);
      if decryptMode.None? || decryptMode.value !in decrypts || decryptMode.value !in peerEncrypts {
        if id == [] {
          return;
        }
        keyidIn := [];
      } else if id == [] {
        if keyidIn == [] {
          return;
        }
        keyidIn := [];
      } else {
        var same := id == keyidIn;
        FbKeyidIn(decryptMode.value, id);
        if same {
          return;
        }
      }
      SendSub(keyidBuffer, ENCRYPT_DEC_KEYID, keyidIn);
    }

    /** encrypt_start */
    method EncryptStart()
      requires Valid()
      modifies Repr
      ensures Valid() && InState() == OnStart(old(InState())).0
      ensures OutState() == WriteAll(des, old(OutState()), OnStart(old(InState())).1)
    {
      hide Write;
      if decryptMode.Some? && decryptMode.value in decrypts && decryptMode.value in peerEncrypts {
        decryptInput := decryptMode;
      } else {
        SendSub(startBuffer, ENCRYPT_REQEND, []);
      }
    }

    /** The octets of a frame pass through the input routine one at a time when there is one. */
    method ReadFrame(frame: seq<Octet>) returns (plain: seq<Octet>)
      requires Valid()
      modifies this, cfb.inStream, ofb.inStream
      ensures Valid() && (InState(), plain) == Read(des, old(InState()), frame) && OutState() == old(OutState())
    {
      plain := frame;
      if decryptInput.Some? {
        plain := Decipher(decryptInput.value, frame);
      }
      read := read + [plain];
    }

    /** c = (*decrypt_input) (c), for every octet */
    method Decipher(k: Kind, frame: seq<Octet>) returns (plain: seq<Octet>)
      requires Valid()
      modifies Of(k).inStream
      ensures (Of(k).inStream.Value(), plain) == Decrypt(k, des, old(Of(k).inStream.Value()), frame)
    {
      plain := [];
      ghost var start := Of(k).inStream.Value();
      for n := 0 to |frame|
        invariant (Of(k).inStream.Value(), plain) == Decrypt(k, des, start, frame[..n])
      {
        ghost var s := Of(k).inStream.Value();
        var c;
        if k.Cfb? {
          c := cfb.inStream.CfbDecrypt(Byte(frame[n]));
        } else {
          c := ofb.inStream.OfbDecrypt(Byte(frame[n]));
        }
        assert (Of(k).inStream.Value(), c) == DecryptByte(k, des, s, frame[n]);
        plain := plain + [c];
        assert frame[..n + 1][..n] == frame[..n] && frame[..n + 1][n] == frame[n];
      }
      assert frame[..|frame|] == frame;
    }

    /** A suboption, or data, has arrived: what telrcv calls for it. */
    method Receive(frame: seq<Octet>, feed: Block)
      requires Valid()
      modifies Repr
      ensures Valid()
      ensures var p := Deliver(des, Peer(server, true, old(OutState()), old(InState())), frame, feed);
              OutState() == p.tx && InState() == p.rx
    {
      hide Write, Read, OnSupport, OnReply, OnDecKeyid, OnRequestStart, SendEnd, OnIs, OnEncKeyid, OnStart;
      var plain := ReadFrame(frame);
      var m := Parse(plain);
      if m.Data? {
        return;
      }
      if m.cmd == ENCRYPT_IS {
        EncryptIs(m.payload);
      } else if m.cmd == ENCRYPT_SUPPORT {
        EncryptSupport(m.payload, feed);
      } else if m.cmd == ENCRYPT_REPLY {
        EncryptReply(m.payload, feed);
      } else if m.cmd == ENCRYPT_START {
        EncryptStart();
      } else if m.cmd == ENCRYPT_END {
        decryptInput := None;
      } else if m.cmd == ENCRYPT_REQSTART {
        EncryptRequestStart(feed);
      } else if m.cmd == ENCRYPT_REQEND {
        EncryptSendEnd();
      } else if m.cmd == ENCRYPT_ENC_KEYID {
        EncryptEncKeyid(m.payload);
      } else if m.cmd == ENCRYPT_DEC_KEYID {
        EncryptDecKeyid(m.payload, feed);
      }
    }

    /** fb64_session for one method */
    method FbSessionKey(k: Kind, key: Block, feed: Block)
      requires Valid()
      modifies Repr
      ensures Valid() && OutState() == FbSession(des, old(OutState()), k, key, feed)
      ensures var fb := old(InState()).Fb(k);
              InState() == old(InState()).With(k, fb.(stream := Rekeyed(fb.stream, key)))
    {
      hide Start;
      var fb := Of(k);
      fb.key := key;
      fb.outStream.StreamKey(key);
      fb.inStream.StreamKey(key);
      if fb.needStart {
        fb.needStart := false;
        var state := FbStart(k, feed);
      }
    }

    /** encrypt_session_key */
    method EncryptSessionKey(key: Block, feedCfb: Block, feedOfb: Block)
      requires Valid()
      modifies Repr
      ensures Valid()
      ensures var p := SessionKey(des, Peer(server, true, old(OutState()), old(InState())), key, feedCfb, feedOfb);
              OutState() == p.tx && InState() == p.rx
    {
      hide FbSession;
      FbSessionKey(Cfb, key, feedCfb);
      FbSessionKey(Ofb, key, feedOfb);
    }
  }

  /** The loop of encrypt_support: every type both ends know, and the first of them. */
  method ScanTypes(kinds: seq<Kind>, typelist: seq<Octet>) returns (common: set<Kind>, first: Option<Kind>)
    ensures common == set j | j in Usable(kinds, typelist)
    ensures first == if Usable(kinds, typelist) == [] then None else Some(Usable(kinds, typelist)[0])
  {
    first, common := None, {};
    for n := 0 to |typelist|
      invariant common == set j | j in Usable(kinds, typelist[..n])
      invariant first == if Usable(kinds, typelist[..n]) == [] then None else Some(Usable(kinds, typelist[..n])[0])
    {
      UsableAppend(kinds, typelist[..n], typelist[n]);
      assert typelist[..n + 1] == typelist[..n] + [typelist[n]];
      var k := KindOf(typelist[n]);
      if k.Some? && k.value in kinds {
        common := common + {k.value};
        if first.None? {
          first := k;
        }
      }
    }
    assert typelist[..|typelist|] == typelist;
  }

  method Assemble(buf: array<Octet>, cmd: Octet, payload: seq<Octet>) returns (frame: seq<Octet>)
    requires 2 * |payload| + 6 <= buf.Length
    modifies buf
    ensures frame == Frame(Sub(cmd, payload))
  {
    buf[0], buf[1], buf[2], buf[3] := IAC, SB, TELOPT_ENCRYPT, cmd;
    assert buf[..4] == [IAC, SB, TELOPT_ENCRYPT, cmd];
    var p := FillDoubled(buf, 4, payload);
    ghost var body := buf[4..p];
    buf[p], buf[p + 1] := IAC, SE;
    frame := buf[..p + 2];
    assert frame == buf[..4] + buf[4..p] + buf[p..p + 2];
    assert buf[4..p] == body && buf[p..p + 2] == [IAC, SE];
  }
}
