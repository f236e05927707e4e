/** Passive mode (section 3.2 of RFC 959, section 3 of RFC 2428, RFC 1639): the replies that
    `passive` of ftpd prints, and how initconn of ftp gets the address and the port back. */
module FtpPassive {
  import opened Basics
  import opened FtpReplies

  datatype Address = Address(a: Octet, b: Octet, c: Octet, d: Octet)

  datatype Mode = Pasv | Lpsv | Epsv

  // ----- printing -----

  /** printf ("%d") and printf ("%u") */
  function Decimal(n: nat): string {
    if n < 10 then [Digit(n)] else Decimal(n / 10) + [Digit(n % 10)]
  }

  /** Numbers with commas between them. */
  function Commas(ns: seq<nat>): string {
    if ns == [] then "" else if |ns| == 1 then Decimal(ns[0]) else Decimal(ns[0]) + "," + Commas(ns[1..])
  }

  function Numbers(mode: Mode, addr: Address, port: nat): seq<nat> {
    match mode
    case Pasv => [addr.a, addr.b, addr.c, addr.d, port / 256 % 256, port % 256]
    case Lpsv => [4, 4, addr.a, addr.b, addr.c, addr.d, 2, port / 256 % 256, port % 256]
    case Epsv => [port]
  }

  function CodeOf(mode: Mode): int {
    match mode case Pasv => 227 case Lpsv => 228 case Epsv => 229
  }

  /** The words of the reply up to the first digit, and what stands behind the numbers. */
  function Words(mode: Mode): string {
    match mode
    case Pasv => "Entering Passive Mode ("
    case Lpsv => "Entering Long Passive Mode ("
    case Epsv => "Entering Extended Passive Mode (|||"
  }

  function Inside(mode: Mode, addr: Address, port: nat): string {
    Commas(Numbers(mode, addr, port)) + if mode.Epsv? then "|" else ""
  }

  /** passive of ftpd, for an IPv4 address */
  function PassiveReply(mode: Mode, addr: Address, port: nat): Reply {
    Reply(CodeOf(mode), [], Words(mode) + Inside(mode, addr, port) + ")")
  }

  // ----- scanning -----

  /** The digits at the front of a text, as a number, and the text behind them. */
  function Digits(s: string, value: nat): (nat, string) {
    if s != "" && IsDigit(s[0]) then Digits(s[1..], value * 10 + Value(s[0])) else (value, s)
  }

  /** sscanf with "%u": blanks and a sign may come first, a number above 64 bits counts as the greatest of
      them, and the value is cut to 32 bits. */
  function ScanU(s: string): Option<(nat, string)> {
    if s == "" then None
    else if IsSpace(s[0]) then ScanU(s[1..])
    else
      var t := if s[0] == '+' || s[0] == '-' then s[1..] else s;
      if t == "" || !IsDigit(t[0]) then None
      else
        var (v, rest) := Digits(t, 0);
        var n: int := v;
        var w := if n > 0xffff_ffff_ffff_ffff then 0xffff_ffff_ffff_ffff else if s[0] == '-' then -n else n;
        Some((w % 0x1_0000_0000, rest))
  }

  /** sscanf with n conversions "%u" separated by commas; None unless all of them succeed. */
  function ScanList(s: string, n: nat): Option<seq<nat>>
    decreases n
  {
    if n == 0 then Some([])
    else
      match ScanU(s)
      case None => None
      case Some((v, rest)) =>
        if n == 1 then Some([v])
        else if rest == "" || rest[0] != ',' then None
        else
          match ScanList(rest[1..], n - 1)
          case None => None
          case Some(vs) => Some([v] + vs)
  }

  /** The passive half of initconn on an IPv4 connection to `his`: where it will connect to. */
  function InitConn(mode: Mode, pasv: string, his: Address): Option<(Address, nat)> {
    match mode
    case Epsv =>
      (match ScanU(pasv)
       case None => None
       case Some((port, _)) => Some((his, port % 0x1_0000)))
    case Lpsv =>
      (match ScanList(pasv, 9)
       case None => None
       case Some(v) =>
         if |v| != 9 || v[0] != 4 || v[1] != 4 || v[6] != 2 then None
         else
           var at := Address(v[2] % 256, v[3] % 256, v[4] % 256, v[5] % 256);
           if at == his then Some((at, v[7] % 256 * 256 + v[8] % 256)) else None)
    case Pasv =>
      match ScanList(pasv, 6)
      case None => None
      case Some(v) =>
        if |v| != 6 then None
        else
          var at := Address(v[0] % 256, v[1] % 256, v[2] % 256, v[3] % 256);
          if at == his then Some((at, v[4] % 256 * 256 + v[5] % 256)) else None
  }

  // ----- numbers survive -----

  lemma {:induction false} DigitsOfDecimal(n: nat, rest: string)
    requires rest == "" || !IsDigit(rest[0])
    ensures Digits(Decimal(n) + rest, 0) == (n, rest)
  {
    DigitsAppend(n, rest, 0);
    assert 0 * Power10(n) + n == n;
  }

  function Power10(n: nat): nat { if n < 10 then 10 else 10 * Power10(n / 10) }

  lemma {:induction false} DigitsAppend(n: nat, rest: string, v: nat)
    ensures Digits(Decimal(n) + rest, v) == Digits(rest, v * Power10(n) + n)
    decreases n
  {
    var s := Decimal(n) + rest;
    if n < 10 {
      assert s[1..] == rest;
    } else {
      var last := [Digit(n % 10)] + rest;
      assert s == Decimal(n / 10) + last;
      DigitsAppend(n / 10, last, v);
      assert last[1..] == rest;
      var u := v * Power10(n / 10) + n / 10;
      assert u * 10 + n % 10 == v * Power10(n) + n by {
        assert n == n / 10 * 10 + n % 10;
        assert v * Power10(n) == v * Power10(n / 10) * 10;
      }
    }
  }

  lemma {:induction false} DecimalShape(n: nat)
    ensures Decimal(n) != "" && IsDigit(Decimal(n)[0])
    ensures forall c :: c in Decimal(n) ==> IsDigit(c)
    ensures (n < 256 ==> |Decimal(n)| <= 3) && (n < 65536 ==> |Decimal(n)| <= 5)
  {
    if n >= 10 {
      DecimalShape(n / 10);
      if n < 256 {
        DecimalSize(n / 10);
      }
      if n < 65536 {
        DecimalSize(n);
      }
    }
  }

  lemma DecimalSize(n: nat)
    ensures (n < 100 ==> |Decimal(n)| <= 2) && (n < 1000 ==> |Decimal(n)| <= 3)
    ensures (n < 10000 ==> |Decimal(n)| <= 4) && (n < 100000 ==> |Decimal(n)| <= 5)
  {
  }

  lemma ScanDecimal(n: nat, rest: string)
    requires n < 0x1_0000_0000 && (rest == "" || !IsDigit(rest[0]))
    ensures ScanU(Decimal(n) + rest) == Some((n, rest))
  {
    DecimalShape(n);
    DigitsOfDecimal(n, rest);
    var s := Decimal(n) + rest;
    assert s[0] == Decimal(n)[0];
  }

  lemma {:induction false} ScanCommas(ns: seq<nat>)
    requires ns != [] && forall i :: 0 <= i < |ns| ==> ns[i] < 0x1_0000_0000
    ensures ScanList(Commas(ns), |ns|) == Some(ns)
    decreases |ns|
  {
    hide ScanU;
    if |ns| == 1 {
      ScanDecimal(ns[0], "");
      assert Decimal(ns[0]) + "" == Decimal(ns[0]);
      assert [ns[0]] == ns;
    } else {
      var rest := "," + Commas(ns[1..]);
      assert Commas(ns) == Decimal(ns[0]) + rest;
      ScanDecimal(ns[0], rest);
      assert rest[1..] == Commas(ns[1..]);
      ScanCommas(ns[1..]);
      assert [ns[0]] + ns[1..] == ns;
    }
  }

  // ----- what getreply keeps of the reply -----

  lemma {:induction false} PassesWords(r: Reg, s: string)
    requires r.dig >= 4 && r.pflag == 1 && forall c :: c in s ==> !IsDigit(c)
    ensures var e := OnLine(r, s); e.dig >= 4 && e.pflag == 1 && e.pasv == r.pasv
    decreases |s|
  {
    if s != "" {
      PassesWords(r, s[..|s| - 1]);
    }
  }

  lemma {:induction false} TakesNumbers(r: Reg, s: string)
    requires r.dig >= 4 && r.pflag == 1 && s != "" && IsDigit(s[0]) && |r.pasv| + |s| < PASV_SIZE
    requires forall c :: c in s ==> !Closes(c)
    ensures var e := OnLine(r, s); e.dig >= 4 && e.pflag == 2 && e.pasv == r.pasv + s
    decreases |s|
  {
    hide OnChar;
    var t, c := s[..|s| - 1], s[|s| - 1];
    assert s == t + [c];
    assert c in s;
    if t == "" {
      assert OnLine(r, t) == r;
      TakesOne(r, c);
      assert r.pasv + s == r.pasv + [c];
    } else {
      assert t[0] == s[0] && forall d :: d in t ==> d in s;
      TakesNumbers(r, t);
      TakesOne(OnLine(r, t), c);
      assert r.pasv + s == r.pasv + t + [c];
    }
  }

  lemma TakesOne(r: Reg, c: char)
    requires r.dig >= 4 && (r.pflag == 2 || (r.pflag == 1 && IsDigit(c))) && |r.pasv| < PASV_SIZE - 1 && !Closes(c)
    ensures var e := OnChar(r, c); e.dig >= 4 && e.pflag == 2 && e.pasv == r.pasv + [c]
  {
  }

  lemma {:induction false} DoneTaking(r: Reg, s: string)
    requires r.pflag == 3
    ensures var e := OnLine(r, s); e.pflag == 3 && e.pasv == r.pasv
    decreases |s|
  {
    if s != "" {
      DoneTaking(r, s[..|s| - 1]);
    }
  }

  /** Only the codes 227, 228 and 229 have the scanner wait for numbers, and the character directly behind the
      code is not yet one of them, whatever it is. */
  lemma Arms(code: int, c: char)
    requires 227 <= code <= 229
    ensures var e := OnLine(START, Printed(code) + [c]); e.dig == 4 && e.pflag == 1 && e.pasv == ""
  {
    var s := Printed(code) + [c];
    assert s == ['2', '2', Digit(code % 10), c];
    OnLineNone(START, s);
    OnLineStep(START, s, 0);
    OnLineStep(START, s, 1);
    OnLineStep(START, s, 2);
    OnLineStep(START, s, 3);
    assert s[..4] == s;
  }

  /** Whatever words without digits precede the numbers, the scanner keeps exactly the numbers; they end at a
      closing parenthesis, or without one at the end of the line. */
  lemma KeepsNumbers(code: int, words: string, numbers: string, close: string)
    requires 227 <= code <= 229 && (forall c :: c in words ==> !IsDigit(c))
    requires numbers != "" && IsDigit(numbers[0]) && |numbers| < PASV_SIZE && forall c :: c in numbers ==> !Closes(c)
    requires close == ")" || close == ""
    ensures var e := OnLine(START, Printed(code) + " " + (words + numbers + close) + "\r");
            e.pflag == 3 && e.pasv == numbers
  {
    hide OnLine, OnChar;
    var head := Printed(code) + " ";
    var end := close + "\r";
    assert head + (words + numbers + close) + "\r" == head + (words + (numbers + end));
    Arms(code, ' ');
    OnLineSplits(START, head, words + (numbers + end));
    var r1 := OnLine(START, head);
    OnLineSplits(r1, words, numbers + end);
    PassesWords(r1, words);
    var r2 := OnLine(r1, words);
    OnLineSplits(r2, numbers, end);
    TakesNumbers(r2, numbers);
    var r3 := OnLine(r2, numbers);
    ClosesNumbers(r3, close);
  }

  lemma ClosesNumbers(r: Reg, close: string)
    requires r.pflag == 2 && (close == ")" || close == "")
    ensures var e := OnLine(r, close + "\r"); e.pflag == 3 && e.pasv == r.pasv
  {
    var end := close + "\r";
    OnLineFront(r, end);
    DoneTaking(OnChar(r, end[0]), end[1..]);
  }

  /** Nothing has been kept, and the code, which is complete, is none of the three. */
  predicate Quiet(r: Reg) {
    r.dig >= 3 && r.pflag == 0 && r.pasv == "" && r.code != 227 && r.code != 228 && r.code != 229
  }

  lemma QuietStart(code: int)
    requires IsCode(code) && code != 227 && code != 228 && code != 229
    ensures Quiet(OnLine(START, Printed(code)))
  {
    var head := Printed(code);
    OnLineNone(START, head);
    OnLineStep(START, head, 0);
    OnLineStep(START, head, 1);
    OnLineStep(START, head, 2);
    assert head[..3] == head;
  }

  /** A reply of one line with any other code leaves nothing to connect to. */
  lemma {:induction false} OtherCodesKeepNothing(code: int, text: string)
    requires IsCode(code) && code != 227 && code != 228 && code != 229
    ensures var e := OnLine(START, Printed(code) + text); Quiet(e)
    decreases |text|
  {
    hide Printed, OnChar;
    var head := Printed(code);
    if text == "" {
      assert head + "" == head;
      QuietStart(code);
    } else {
      var t := text[..|text| - 1];
      OtherCodesKeepNothing(code, t);
      assert (head + text)[..|head + text| - 1] == head + t;
      QuietStays(OnLine(START, head + t), text[|text| - 1]);
    }
  }

  lemma QuietStays(r: Reg, c: char)
    requires Quiet(r)
    ensures Quiet(OnChar(r, c))
  {
  }

  lemma {:induction false} CommasShape(ns: seq<nat>)
    requires ns != [] && forall i :: 0 <= i < |ns| ==> ns[i] < 256
    ensures Commas(ns) != "" && IsDigit(Commas(ns)[0]) && |Commas(ns)| <= 4 * |ns| - 1
    ensures forall c :: c in Commas(ns) ==> IsDigit(c) || c == ','
    decreases |ns|
  {
    hide Decimal;
    DecimalShape(ns[0]);
    if |ns| > 1 {
      CommasShape(ns[1..]);
      assert |Commas(ns)| == |Decimal(ns[0])| + 1 + |Commas(ns[1..])|;
    }
  }

  lemma InsideShape(mode: Mode, addr: Address, port: nat)
    requires port < 65536
    ensures var s := Inside(mode, addr, port);
            s != "" && IsDigit(s[0]) && |s| < PASV_SIZE && forall c :: c in s ==> IsDigit(c) || c == ',' || c == '|'
  {
    var ns := Numbers(mode, addr, port);
    if mode.Epsv? {
      DecimalShape(port);
      assert Commas(ns) == Decimal(port);
    } else {
      CommasShape(ns);
    }
  }

  // ----- main result -----

  /** What stands between the code and the numbers has no digit and is no line end. */
  lemma WordsShape(mode: Mode)
    ensures forall c :: c in Words(mode) ==> ' ' <= c <= '|' && !IsDigit(c)
  {
    var w := Words(mode);
    forall i | 0 <= i < |w| ensures ' ' <= w[i] <= '|' && !IsDigit(w[i]) { }
  }

  lemma PassiveIsPlain(mode: Mode, addr: Address, port: nat)
    requires port < 65536
    ensures WellFormed(PassiveReply(mode, addr, port))
  {
    hide Words, Inside;
    WordsShape(mode);
    InsideShape(mode, addr, port);
  }

  /** The text the scanner keeps names the address and the port; a peer at another address than
      the one on the control connection is refused. */
  lemma InitConnReads(mode: Mode, addr: Address, port: nat, his: Address)
    requires port < 65536
    ensures InitConn(mode, Inside(mode, addr, port), his)
         == if mode.Epsv? || his == addr then Some((his, port)) else None
  {
    hide ScanU, ScanList, Decimal, Commas;
    var ns := Numbers(mode, addr, port);
    assert port / 256 % 256 * 256 + port % 256 == port;
    if mode.Epsv? {
      ScanDecimal(port, "|");
      CommasOne(port);
    } else {
      ScanCommas(ns);
      assert Commas(ns) + "" == Commas(ns);
    }
  }

  /** What a reply with any numbers leads to, also one that no server should send: numbers are taken modulo
      256, the family and the lengths have to be those of IPv4, and the address the peer's. */
  lemma AnyLpsvNumbers(v: seq<nat>, his: Address)
    requires |v| == 9 && forall i :: 0 <= i < 9 ==> v[i] < 0x1_0000_0000
    ensures InitConn(Lpsv, Commas(v), his) ==
            if v[0] == 4 && v[1] == 4 && v[6] == 2
               && [v[2] % 256, v[3] % 256, v[4] % 256, v[5] % 256] == [his.a, his.b, his.c, his.d]
            then Some((his, 256 * (v[7] % 256) + v[8] % 256)) else None
  {
    hide ScanU, ScanList, Decimal, Commas;
    ScanCommas(v);
    SameAddress(v[2] % 256, v[3] % 256, v[4] % 256, v[5] % 256, his);
  }

  lemma AnyPasvNumbers(v: seq<nat>, his: Address)
    requires |v| == 6 && forall i :: 0 <= i < 6 ==> v[i] < 0x1_0000_0000
    ensures InitConn(Pasv, Commas(v), his) ==
            if [v[0] % 256, v[1] % 256, v[2] % 256, v[3] % 256] == [his.a, his.b, his.c, his.d]
            then Some((his, 256 * (v[4] % 256) + v[5] % 256)) else None
  {
    hide ScanU, ScanList, Decimal, Commas;
    ScanCommas(v);
    SameAddress(v[0] % 256, v[1] % 256, v[2] % 256, v[3] % 256, his);
  }

  lemma SameAddress(a: Octet, b: Octet, c: Octet, d: Octet, his: Address)
    ensures Address(a, b, c, d) == his <==> [a, b, c, d] == [his.a, his.b, his.c, his.d]
  {
    assert [a, b, c, d][0] == a && [a, b, c, d][1] == b && [a, b, c, d][2] == c && [a, b, c, d][3] == d;
    var h := [his.a, his.b, his.c, his.d];
    assert h[0] == his.a && h[1] == his.b && h[2] == his.c && h[3] == his.d;
  }

  /** What a number with its sign counts as. */
  function Signed(minus: bool, n: int): int { if n >= 0x1_0000_0000_0000_0000 then -1 else if minus then -n else n }

  /** An extended reply with any number at all: blanks in front of it do not matter, a minus sign counts, and
      only its last 16 bits are the port. */
  lemma {:induction false} AnyEpsvNumber(blanks: string, minus: bool, n: int, rest: string, his: Address)
    requires 0 <= n && (rest == "" || !IsDigit(rest[0])) && forall c :: c in blanks ==> IsSpace(c)
    ensures InitConn(Epsv, blanks + ((if minus then "-" else "") + Decimal(n) + rest), his) ==
            Some((his, Signed(minus, n) % 65536))
    decreases |blanks|
  {
    hide Decimal, Digits;
    var number := (if minus then "-" else "") + Decimal(n) + rest;
    if blanks == "" {
      assert blanks + number == number;
      SignedNumber(minus, n, rest);
      Modulo(Signed(minus, n));
    } else {
      AnyEpsvNumber(blanks[1..], minus, n, rest, his);
      assert (blanks + number)[1..] == blanks[1..] + number;
      assert (blanks + number)[0] == blanks[0] && blanks[0] in blanks;
    }
  }

  lemma Modulo(n: int)
    ensures n % 0x1_0000_0000 % 65536 == n % 65536
  {
    assert n == 65536 * (65536 * (n / 0x1_0000_0000)) + n % 0x1_0000_0000;
  }

  lemma SignedNumber(minus: bool, n: int, rest: string)
    requires 0 <= n && (rest == "" || !IsDigit(rest[0]))
    ensures ScanU((if minus then "-" else "") + Decimal(n) + rest) == Some((Signed(minus, n) % 0x1_0000_0000, rest))
  {
    hide ScanU, Decimal;
    var s := Decimal(n) + rest;
    DecimalShape(n);
    DigitsOfDecimal(n, rest);
    assert s[0] == Decimal(n)[0];
    if minus {
      assert "-" + Decimal(n) + rest == "-" + s;
    } else {
      assert "" + Decimal(n) + rest == s;
    }
    ScanSigned(s, minus, n, rest);
  }

  lemma ScanSigned(s: string, minus: bool, n: int, rest: string)
    requires 0 <= n && s != "" && IsDigit(s[0]) && Digits(s, 0) == (n, rest)
    ensures ScanU(if minus then "-" + s else s) == Some((Signed(minus, n) % 0x1_0000_0000, rest))
  {
    hide Digits;
    assert ("-" + s)[1..] == s;
    assert 0xffff_ffff_ffff_ffff % 0x1_0000_0000 == -1 % 0x1_0000_0000;
  }

  /** A list in which anything but a comma stands behind a number is not taken. */
  lemma OnlyCommasSeparate(n: nat, c: char, rest: string, count: nat)
    requires n < 0x1_0000_0000 && count > 1 && c != ',' && !IsDigit(c)
    ensures ScanList(Decimal(n) + ([c] + rest), count) == None
  {
    hide ScanU, Decimal;
    ScanDecimal(n, [c] + rest);
  }

  lemma CommasOne(n: nat)
    ensures Commas([n]) == Decimal(n)
  {
  }

  /** Every passive reply leads the client back to the port of the server, and to its address: a
      reply that names an address is followed exactly if that is the peer of the control connection. */
  lemma PassiveRoundTrip(mode: Mode, addr: Address, port: nat, his: Address, rest: string) returns (r: Reg)
    requires port < 65536
    ensures Scan(Render(PassiveReply(mode, addr, port)) + rest, START) == (Got(r, rest), "")
    ensures r.code == (if mode.Pasv? then 227 else if mode.Lpsv? then 228 else 229) && r.n == 2 && r.pflag == 3
    ensures InitConn(mode, r.pasv, his) == if mode.Epsv? || his == addr then Some((his, port)) else None
  {
    hide Scan, OnLine, InitConn, Words, Inside, WellFormed, Printed;
    var p := PassiveReply(mode, addr, port);
    var inside := Inside(mode, addr, port);
    InsideShape(mode, addr, port);
    WordsShape(mode);
    PassiveIsPlain(mode, addr, port);
    var line := Printed(p.code) + " " + p.last + "\r";
    assert Render(p) + rest == line + "\n" + rest by {
      assert RenderLines(p.code, p.lines) == "";
    }
    LastLine(p, START, rest);
    r := OnLine(START, line);
    KeepsNumbers(p.code, Words(mode), inside, ")");
    InitConnReads(mode, addr, port, his);
  }

  // ----- the replies, written out -----

  /** A number in front of a text, with a comma between. */
  function Comma(n: nat, s: string): string { Decimal(n) + "," + s }

  /** 227 in full: the address from its first octet on, the high octet of the port before the low one, and
      what stands around them. */
  lemma PasvText(addr: Address, port: nat)
    requires port < 65536
    ensures Render(PassiveReply(Pasv, addr, port)) ==
            "227" + " " + "Entering Passive Mode ("
            + Comma(addr.a, Comma(addr.b, Comma(addr.c, Comma(addr.d, Comma(port / 256, Decimal(port % 256))))))
            + ")" + "\r\n"
  {
    hide Decimal, Comma, Commas, Render, Printed, Inside;
    CodesArePrinted();
    RenderPassive(Pasv, addr, port, "227");
    PasvNumbers(addr, port);
  }

  lemma PasvNumbers(addr: Address, port: nat)
    requires port < 65536
    ensures Inside(Pasv, addr, port) ==
            Comma(addr.a, Comma(addr.b, Comma(addr.c, Comma(addr.d, Comma(port / 256, Decimal(port % 256))))))
  {
    hide Decimal, Comma, Commas;
    var p, q := port / 256, port % 256;
    AddressCommas(addr, [p, q]);
    CommasStep(p, [q]);
    CommasOne(q);
    assert [p] + [q] == [p, q];
    var ns := Numbers(Pasv, addr, port);
    assert ns == [addr.a, addr.b, addr.c, addr.d] + [p, q];
    assert Commas(ns) + "" == Commas(ns);
  }

  /** 228 in full: the family 4 and the length 4 of the address, and the length 2 of the port. */
  lemma LpsvText(addr: Address, port: nat)
    requires port < 65536
    ensures Render(PassiveReply(Lpsv, addr, port)) ==
            "228" + " " + "Entering Long Passive Mode ("
            + Comma(4, Comma(4, Comma(addr.a, Comma(addr.b, Comma(addr.c, Comma(addr.d,
                Comma(2, Comma(port / 256, Decimal(port % 256)))))))))
            + ")" + "\r\n"
  {
    hide Decimal, Comma, Commas, Render, Printed, Inside;
    CodesArePrinted();
    RenderPassive(Lpsv, addr, port, "228");
    LpsvNumbers(addr, port);
  }

  lemma LpsvNumbers(addr: Address, port: nat)
    requires port < 65536
    ensures Inside(Lpsv, addr, port) ==
            Comma(4, Comma(4, Comma(addr.a, Comma(addr.b, Comma(addr.c, Comma(addr.d,
              Comma(2, Comma(port / 256, Decimal(port % 256)))))))))
  {
    hide Decimal, Comma, Commas;
    var p, q := port / 256, port % 256;
    var tail := [2] + ([p] + [q]);
    var rest := [addr.a, addr.b, addr.c, addr.d] + tail;
    CommasStep(4, [4] + rest);
    CommasStep(4, rest);
    AddressCommas(addr, tail);
    CommasStep(2, [p] + [q]);
    CommasStep(p, [q]);
    CommasOne(q);
    var ns := Numbers(Lpsv, addr, port);
    assert ns == [4] + ([4] + rest);
    assert Commas(ns) + "" == Commas(ns);
  }

  /** 229 in full: the port only. */
  lemma EpsvText(addr: Address, port: nat)
    requires port < 65536
    ensures Render(PassiveReply(Epsv, addr, port)) ==
            "229" + " " + "Entering Extended Passive Mode (|||" + (Decimal(port) + "|") + ")" + "\r\n"
  {
    hide Decimal, Commas, Render, Printed;
    CodesArePrinted();
    RenderPassive(Epsv, addr, port, "229");
    CommasOne(port);
  }

  lemma RenderPassive(mode: Mode, addr: Address, port: nat, code: string)
    requires Printed(CodeOf(mode)) == code
    ensures Render(PassiveReply(mode, addr, port)) ==
            code + " " + Words(mode) + Inside(mode, addr, port) + ")" + "\r\n"
  {
    hide Words, Inside, Printed;
    assert RenderLines(CodeOf(mode), []) == "";
    var w, n := Words(mode), Inside(mode, addr, port);
    assert code + " " + (w + n + ")") + "\r" + "\n" == code + " " + w + n + ")" + "\r\n";
  }

  lemma CodesArePrinted()
    ensures Printed(227) == "227" && Printed(228) == "228" && Printed(229) == "229"
  {
  }

  lemma CommasStep(n: nat, ns: seq<nat>)
    requires ns != []
    ensures Commas([n] + ns) == Comma(n, Commas(ns))
  {
    hide Decimal;
    assert ([n] + ns)[1..] == ns;
  }

  lemma AddressCommas(addr: Address, ns: seq<nat>)
    requires ns != []
    ensures Commas([addr.a, addr.b, addr.c, addr.d] + ns) ==
            Comma(addr.a, Comma(addr.b, Comma(addr.c, Comma(addr.d, Commas(ns)))))
  {
    hide Comma, Commas;
    CommasStep(addr.d, ns);
    CommasStep(addr.c, [addr.d] + ns);
    CommasStep(addr.b, [addr.c] + ([addr.d] + ns));
    CommasStep(addr.a, [addr.b] + ([addr.c] + ([addr.d] + ns)));
    assert [addr.a, addr.b, addr.c, addr.d] + ns == [addr.a] + ([addr.b] + ([addr.c] + ([addr.d] + ns)));
  }
}
