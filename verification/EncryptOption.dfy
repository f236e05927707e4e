/** The negotiation of the Telnet ENCRYPT option: what every handler of libtelnet/encrypt.c, and
    every routine of libtelnet/enc_des.c it calls through the table of methods, does to the state
    of one end of the connection.  `Tx` holds the state of the output direction and `Rx` that of
    the input direction; no handler touches both, except that replies travel on the output. */
module EncryptOption {
  import opened Basics
  import opened FeedbackCipher
  import opened TelnetFrames

  const FB64_IV: Octet := 1
  const FB64_IV_OK: Octet := 2
  const FB64_IV_BAD: Octet := 3
  const MAXKEYLEN := 64

  /** The keyid every method accepts, and the only one it ever sends. */
  const KEYID_ZERO: seq<Octet> := [0]

  /** fb.state[]: FAILED, or the set of bits still to be cleared. */
  datatype Progress = Failed | Bits(noSendIv: bool, noRecvIv: bool, noKeyid: bool)

  const IN_PROGRESS := Progress.Bits(true, true, true)
  const SUCCESS := Progress.Bits(false, false, false)

  function Revived(p: Progress): (r: Progress)
    ensures r.Bits?
  {
    if p.Failed? then IN_PROGRESS else p
  }

  function TypeOf(k: Kind): Octet {
    match k case Cfb => 1 case Ofb => 2
  }

  function KindOf(t: Octet): (k: Option<Kind>)
    ensures forall j :: TypeOf(j) == t ==> k == Some(j)
  {
    if t == 1 then Some(Cfb) else if t == 2 then Some(Ofb) else None
  }

  /** The encrypting half of struct fb. */
  datatype OutFb = OutFb(key: Block, tempFeed: Block, needStart: bool, state: Progress, stream: Stream)

  /** The decrypting half of struct fb. */
  datatype InFb = InFb(state: Progress, stream: Stream)

  /** `log` is every frame ever written, in clear; `wire` the frames that are still in transit. */
  datatype Tx = Tx(kinds: seq<Kind>, cfb: OutFb, ofb: OutFb, peerDecrypts: set<Kind>,
                   mode: Option<Kind>, output: Option<Kind>, auto: bool, keyid: seq<Octet>,
                   log: seq<seq<Octet>>, wire: seq<seq<Octet>>)
  {
    function Fb(k: Kind): OutFb { if k.Cfb? then cfb else ofb }

    function With(k: Kind, f: OutFb): Tx { if k.Cfb? then this.(cfb := f) else this.(ofb := f) }

    predicate Finds(k: Kind) { k in kinds && k in peerDecrypts }
  }

  /** `log` is every frame ever read, after decryption. */
  datatype Rx = Rx(kinds: seq<Kind>, cfb: InFb, ofb: InFb, peerEncrypts: set<Kind>,
                   mode: Option<Kind>, input: Option<Kind>, auto: bool, keyid: seq<Octet>,
                   log: seq<seq<Octet>>)
  {
    function Fb(k: Kind): InFb { if k.Cfb? then cfb else ofb }

    function With(k: Kind, f: InFb): Rx { if k.Cfb? then this.(cfb := f) else this.(ofb := f) }

    predicate Finds(k: Kind) { k in kinds && k in peerEncrypts }
  }

  datatype Peer = Peer(server: bool, supportSent: bool, tx: Tx, rx: Rx)

  // ----- output direction -----

  /** net_write: the octets pass through encrypt_output when it is set. */
  function Write(des: BlockCipher, tx: Tx, m: Message): Tx {
    var plain := Frame(m);
    match tx.output
    case None => tx.(log := tx.log + [plain], wire := tx.wire + [plain])
    case Some(k) =>
      var (stream, cipher) := Encrypt(k, des, tx.Fb(k).stream, plain);
      tx.With(k, tx.Fb(k).(stream := stream)).(log := tx.log + [plain], wire := tx.wire + [cipher])
  }

  function WriteAll(des: BlockCipher, tx: Tx, ms: seq<Message>): Tx
    decreases |ms|
  {
    if ms == [] then tx else WriteAll(des, Write(des, tx, ms[0]), ms[1..])
  }

  /** fb64_start (DIR_ENCRYPT); `feed` is the random block that becomes the IV if one is sent. */
  function Start(des: BlockCipher, tx: Tx, k: Kind, feed: Block): (Tx, Progress) {
    var fb := tx.Fb(k);
    var state := Revived(fb.state);
    if !fb.state.Failed? && !state.noSendIv then
      (tx, state)
    else if fb.key == ZERO_BLOCK then
      (tx.With(k, fb.(needStart := true, state := state)), state)
    else
      var sent := state.(noSendIv := false, noRecvIv := true);
      (Write(des, tx.With(k, fb.(tempFeed := feed, state := sent)), Sub(ENCRYPT_IS, [TypeOf(k), FB64_IV] + feed)), sent)
  }

  /** encrypt_start_output */
  function StartOutput(des: BlockCipher, tx: Tx, k: Kind, feed: Block): Tx {
    if !tx.Finds(k) then tx else
      var (t, state) := Start(des, tx, k, feed);
      if state != SUCCESS then t
      else Write(des, t, Sub(ENCRYPT_START, t.keyid)).(output := Some(k), mode := Some(k))
  }

  /** encrypt_send_end */
  function SendEnd(des: BlockCipher, tx: Tx): Tx {
    if tx.output.None? then tx else Write(des, tx, Sub(ENCRYPT_END, [])).(output := None)
  }

  function Usable(kinds: seq<Kind>, types: seq<Octet>): seq<Kind> {
    if types == [] then []
    else
      var k := KindOf(types[0]);
      (if k.Some? && k.value in kinds then [k.value] else []) + Usable(kinds, types[1..])
  }

  /** encrypt_support: the first type both ends know becomes the mode. */
  function OnSupport(des: BlockCipher, tx: Tx, types: seq<Octet>, feed: Block): Tx {
    var usable := Usable(tx.kinds, types);
    var t := tx.(peerDecrypts := set k | k in usable);
    if usable == [] || !t.Finds(usable[0]) then t else
      var (u, state) := Start(des, t, usable[0], feed);
      if state.Failed? then u else
        var v := u.(mode := Some(usable[0]));
        if state == SUCCESS then StartOutput(des, v, usable[0], feed) else v
  }

  /** fb64_reply */
  function FbReply(des: BlockCipher, tx: Tx, k: Kind, data: seq<Octet>): (Tx, Progress) {
    var fb := tx.Fb(k);
    if data == [] then
      (tx.With(k, fb.(state := Failed)), Failed)
    else if data[0] == FB64_IV_OK then
      var state := Revived(fb.state).(noRecvIv := false);
      var t := tx.With(k, fb.(stream := Seeded(fb.stream, fb.tempFeed), state := state)).(keyid := KEYID_ZERO);
      (Write(des, t, Sub(ENCRYPT_ENC_KEYID, KEYID_ZERO)), state)
    else if data[0] == FB64_IV_BAD then
      (tx.With(k, fb.(tempFeed := ZERO_BLOCK, stream := Seeded(fb.stream, ZERO_BLOCK), state := Failed)), Failed)
    else
      (tx.With(k, fb.(state := Failed)), Failed)
  }

  /** encrypt_reply */
  function OnReply(des: BlockCipher, tx: Tx, data: seq<Octet>, feed: Block): Tx {
    if data == [] then tx else
      match KindOf(data[0])
      case None => tx
      case Some(k) =>
        if !tx.Finds(k) then tx else
          var (t, state) := FbReply(des, tx, k, data[1..]);
          if state.Failed? then t.(auto := false) else
            var u := t.(mode := Some(k));
            if state == SUCCESS && u.auto then StartOutput(des, u, k, feed) else u
  }

  function Clipped(keyid: seq<Octet>): seq<Octet> {
    if |keyid| > MAXKEYLEN then keyid[..MAXKEYLEN] else keyid
  }

  /** fb64_keyid: the state and the key id that is left. */
  function FbKeyid(state: Progress, keyid: seq<Octet>): (Progress, seq<Octet>) {
    if keyid != KEYID_ZERO then (state, []) else (var r := Revived(state); r.(noKeyid := false), keyid)
  }

  /** encrypt_dec_keyid: encrypt_keyid on the output direction. */
  function OnDecKeyid(des: BlockCipher, tx: Tx, received: seq<Octet>, feed: Block): Tx {
    var id := Clipped(received);
    if tx.mode.None? || !tx.Finds(tx.mode.value) then
      if id == [] then tx else Write(des, tx.(keyid := []), Sub(ENCRYPT_ENC_KEYID, []))
    else
      var k := tx.mode.value;
      if id == [] then
        if tx.keyid == [] then tx else Write(des, tx.(keyid := []), Sub(ENCRYPT_ENC_KEYID, []))
      else
        var (state, left) := FbKeyid(tx.Fb(k).state, id);
        var t := tx.With(k, tx.Fb(k).(state := state)).(keyid := left);
        if id != tx.keyid then Write(des, t, Sub(ENCRYPT_ENC_KEYID, left))
        else if state == SUCCESS && t.auto then StartOutput(des, t, k, feed)
        else t
  }

  /** encrypt_request_start */
  function OnRequestStart(des: BlockCipher, tx: Tx, server: bool, feed: Block): Tx {
    match tx.mode
    case None => if server then tx.(auto := true) else tx
    case Some(k) => StartOutput(des, tx, k, feed)
  }

  function OnTx(des: BlockCipher, server: bool, tx: Tx, m: Message, feed: Block): Tx {
    if m.Data? then tx
    else if m.cmd == ENCRYPT_SUPPORT then OnSupport(des, tx, m.payload, feed)
    else if m.cmd == ENCRYPT_REPLY then OnReply(des, tx, m.payload, feed)
    else if m.cmd == ENCRYPT_DEC_KEYID then OnDecKeyid(des, tx, m.payload, feed)
    else if m.cmd == ENCRYPT_REQSTART then OnRequestStart(des, tx, server, feed)
    else if m.cmd == ENCRYPT_REQEND then SendEnd(des, tx)
    else tx
  }

  // ----- input direction: the new state and the messages sent back -----

  /** fb64_is */
  function FbIs(fb: InFb, data: seq<Octet>): (InFb, Octet) {
    if data == [] then (fb, FB64_IV_BAD)
    else if data[0] != FB64_IV then (fb, FB64_IV_BAD)
    else if |data| != 1 + BLOCK_SIZE then (fb.(state := Failed), FB64_IV_BAD)
    else (InFb(IN_PROGRESS, Seeded(fb.stream, data[1..])), FB64_IV_OK)
  }

  /** encrypt_is */
  function OnIs(rx: Rx, data: seq<Octet>): (Rx, seq<Message>) {
    if data == [] then (rx, []) else
      match KindOf(data[0])
      case None => (rx, [])
      case Some(k) =>
        var r := rx.(peerEncrypts := rx.peerEncrypts + {k});
        if !r.Finds(k) then (r, []) else
          var (fb, verdict) := FbIs(r.Fb(k), data[1..]);
          var answer := Sub(ENCRYPT_REPLY, [TypeOf(k), verdict]);
          var t := r.With(k, fb);
          if fb.state.Failed? then (t.(auto := false), [answer])
          else if fb.state == SUCCESS && t.auto then (t.(mode := Some(k)), [answer, Sub(ENCRYPT_REQSTART, t.keyid)])
          else (t.(mode := Some(k)), [answer])
  }

  /** encrypt_enc_keyid: encrypt_keyid on the input direction. */
  function OnEncKeyid(rx: Rx, received: seq<Octet>): (Rx, seq<Message>) {
    var id := Clipped(received);
    if rx.mode.None? || !rx.Finds(rx.mode.value) then
      if id == [] then (rx, []) else (rx.(keyid := []), [Sub(ENCRYPT_DEC_KEYID, [])])
    else
      var k := rx.mode.value;
      if id == [] then
        if rx.keyid == [] then (rx, []) else (rx.(keyid := []), [Sub(ENCRYPT_DEC_KEYID, [])])
      else
        var (state, left) := FbKeyid(rx.Fb(k).state, id);
        var r := rx.With(k, rx.Fb(k).(state := state)).(keyid := left);
        (r, if id != rx.keyid then [Sub(ENCRYPT_DEC_KEYID, left)] else [])
  }

  /** encrypt_start */
  function OnStart(rx: Rx): (Rx, seq<Message>) {
    if rx.mode.Some? && rx.Finds(rx.mode.value) then (rx.(input := rx.mode), [])
    else (rx, [Sub(ENCRYPT_REQEND, [])])
  }

  function OnRx(rx: Rx, m: Message): (Rx, seq<Message>) {
    if m.Data? then (rx, [])
    else if m.cmd == ENCRYPT_IS then OnIs(rx, m.payload)
    else if m.cmd == ENCRYPT_ENC_KEYID then OnEncKeyid(rx, m.payload)
    else if m.cmd == ENCRYPT_START then OnStart(rx)
    else if m.cmd == ENCRYPT_END then (rx.(input := None), [])
    else (rx, [])
  }

  /** Every octet read passes through decrypt_input when it is set. */
  function Read(des: BlockCipher, rx: Rx, frame: seq<Octet>): (Rx, seq<Octet>) {
    match rx.input
    case None => (rx.(log := rx.log + [frame]), frame)
    case Some(k) =>
      var (stream, plain) := Decrypt(k, des, rx.Fb(k).stream, frame);
      (rx.With(k, rx.Fb(k).(stream := stream)).(log := rx.log + [plain]), plain)
  }

  // ----- one end as a whole -----

  function RxStep(des: BlockCipher, rx: Rx, frame: seq<Octet>): Rx {
    var (r, plain) := Read(des, rx, frame);
    OnRx(r, Parse(plain)).0
  }

  function Deliver(des: BlockCipher, p: Peer, frame: seq<Octet>, feed: Block): Peer {
    var (r, plain) := Read(des, p.rx, frame);
    var m := Parse(plain);
    var (rx, replies) := OnRx(r, m);
    p.(rx := rx, tx := OnTx(des, p.server, WriteAll(des, p.tx, replies), m, feed))
  }

  function KeyedOut(fb: OutFb, key: Block): OutFb {
    fb.(key := key, stream := Rekeyed(fb.stream, key))
  }

  function KeyedIn(rx: Rx, key: Block): Rx {
    rx.(cfb := rx.cfb.(stream := Rekeyed(rx.cfb.stream, key)), ofb := rx.ofb.(stream := Rekeyed(rx.ofb.stream, key)))
  }

  /** The sending half of fb64_session for one method: a start that waited for the key goes ahead. */
  function FbSession(des: BlockCipher, tx: Tx, k: Kind, key: Block, feed: Block): Tx {
    var fb := KeyedOut(tx.Fb(k), key);
    if fb.needStart then Start(des, tx.With(k, fb.(needStart := false)), k, feed).0 else tx.With(k, fb)
  }

  /** encrypt_session_key, with the parity of the key already mended. */
  function SessionKey(des: BlockCipher, p: Peer, key: Block, feedCfb: Block, feedOfb: Block): Peer {
    p.(tx := FbSession(des, FbSession(des, p.tx, Cfb, key, feedCfb), Ofb, key, feedOfb), rx := KeyedIn(p.rx, key))
  }

  function Types(kinds: seq<Kind>): seq<Octet> {
    seq(|kinds|, i requires 0 <= i < |kinds| => TypeOf(kinds[i]))
  }

  /** encrypt_send_support */
  function SendSupport(des: BlockCipher, p: Peer): Peer {
    if p.supportSent then p else
      var t := if !p.server && p.rx.auto then Write(des, p.tx, Sub(ENCRYPT_REQSTART, p.rx.keyid)) else p.tx;
      p.(supportSent := true, tx := Write(des, t, Sub(ENCRYPT_SUPPORT, Types(p.rx.kinds))))
  }

  /** EncryptStartOutput */
  function UserStart(des: BlockCipher, p: Peer, feed: Block): Peer {
    match p.tx.mode
    case None => p
    case Some(k) => p.(tx := StartOutput(des, p.tx, k, feed))
  }

  /** encrypt_init, with the auto flags as the command line left them. */
  function Initial(server: bool, encrypts: seq<Kind>, decrypts: seq<Kind>, autoencrypt: bool, autodecrypt: bool): Peer {
    var out := OutFb(ZERO_BLOCK, ZERO_BLOCK, false, Failed, CLEARED);
    var inp := InFb(Failed, CLEARED);
    Peer(server, false,
         Tx(encrypts, out, out, {}, None, None, autoencrypt, [], [], []),
         Rx(decrypts, inp, inp, {}, None, None, autodecrypt, [], []))
  }
}
