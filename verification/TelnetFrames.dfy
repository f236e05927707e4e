/** How the ENCRYPT suboptions and user data appear on a Telnet connection: the octet IAC is
    doubled inside both, and a suboption is enclosed in IAC SB and IAC SE. */
module TelnetFrames {
  import opened Basics
  import opened FeedbackCipher

  const IAC: Octet := 255
  const SB: Octet := 250
  const SE: Octet := 240
  const TELOPT_ENCRYPT: Octet := 38

  const ENCRYPT_IS: Octet := 0
  const ENCRYPT_SUPPORT: Octet := 1
  const ENCRYPT_REPLY: Octet := 2
  const ENCRYPT_START: Octet := 3
  const ENCRYPT_END: Octet := 4
  const ENCRYPT_REQSTART: Octet := 5
  const ENCRYPT_REQEND: Octet := 6
  const ENCRYPT_ENC_KEYID: Octet := 7
  const ENCRYPT_DEC_KEYID: Octet := 8

  datatype Message = Sub(cmd: Octet, payload: seq<Octet>) | Data(bytes: seq<Octet>)

  function Doubled(s: seq<Octet>): (r: seq<Octet>)
    ensures r == [] <==> s == []
    ensures |r| > 0 && r[0] == IAC ==> |r| > 1 && r[1] == IAC
  {
    if s == [] then []
    else if s[0] == IAC then [IAC, IAC] + Doubled(s[1..])
    else [s[0]] + Doubled(s[1..])
  }

  function Undoubled(s: seq<Octet>): seq<Octet> {
    if s == [] then []
    else if s[0] == IAC && |s| > 1 && s[1] == IAC then [IAC] + Undoubled(s[2..])
    else [s[0]] + Undoubled(s[1..])
  }

  function Frame(m: Message): seq<Octet> {
    match m
    case Sub(cmd, payload) => [IAC, SB, TELOPT_ENCRYPT, cmd] + Doubled(payload) + [IAC, SE]
    case Data(bytes) => Doubled(bytes)
  }

  /** A suboption in octets: IAC SB ENCRYPT, the command, the payload, IAC SE. */
  function Line(cmd: Octet, payload: seq<Octet>): seq<Octet> { [255, 250, 38, cmd] + Doubled(payload) + [255, 240] }

  function Parse(f: seq<Octet>): Message {
    if |f| >= 6 && f[..3] == [IAC, SB, TELOPT_ENCRYPT] && f[|f| - 2..] == [IAC, SE] then
      Sub(f[3], Undoubled(f[4..|f| - 2]))
    else
      Data(Undoubled(f))
  }

  lemma FrameIsLine(m: Message)
    requires m.Sub?
    ensures Frame(m) == Line(m.cmd, m.payload)
  {
  }

  lemma {:induction false} UndoubleInverts(s: seq<Octet>)
    ensures Undoubled(Doubled(s)) == s
  {
    if s == [] {
    } else {
      UndoubleInverts(s[1..]);
      if s[0] == IAC {
        assert Doubled(s)[2..] == Doubled(s[1..]);
      } else {
        assert Doubled(s)[1..] == Doubled(s[1..]);
      }
      assert [s[0]] + s[1..] == s;
    }
  }

  /** What one end writes is what the other end reads, whatever octets the payload holds. */
  lemma ParseInvertsFrame(m: Message)
    ensures Parse(Frame(m)) == m
  {
    var f := Frame(m);
    match m
    case Sub(cmd, payload) =>
      UndoubleInverts(payload);
      assert f[4..|f| - 2] == Doubled(payload);
    case Data(bytes) =>
      UndoubleInverts(bytes);
      if |f| >= 6 {
        assert f[..3][0] == f[0] && f[..3][1] == f[1];
      }
  }

  /** Where a reader that takes IAC with the octet behind it finds the IAC SE that ends a suboption. */
  function EndOfSub(s: seq<Octet>): nat
    requires |s| > 1
    decreases |s|
  {
    if s[0] == IAC then if s[1] == SE || |s| < 4 then 0 else 2 + EndOfSub(s[2..])
    else if |s| == 2 then 0
    else 1 + EndOfSub(s[1..])
  }

  /** No payload, whatever octets it holds, can end a suboption before its end. */
  lemma {:induction false} PayloadDoesNotEnd(payload: seq<Octet>, rest: seq<Octet>)
    ensures EndOfSub(Doubled(payload) + [IAC, SE] + rest) == |Doubled(payload)|
  {
    var s := Doubled(payload) + [IAC, SE] + rest;
    if payload != [] {
      PayloadDoesNotEnd(payload[1..], rest);
      var tail := Doubled(payload[1..]) + [IAC, SE] + rest;
      if payload[0] == IAC {
        assert s[2..] == tail;
      } else {
        assert s[1..] == tail;
      }
    }
  }
}
