/** Server replies on the FTP control connection (section 4.2 of RFC 959): how ftpd prints them and
    how getreply of ftp takes the stream apart again. */
module FtpReplies {
  import opened Basics

  const BUFSIZ := 8192
  const PASV_SIZE := 64

  const IAC: char := 255 as char
  const DONT: char := 254 as char
  const DO: char := 253 as char
  const WONT: char := 252 as char
  const WILL: char := 251 as char

  // ----- getreply: its variables, and what one character does to them -----

  /** `text` is reply_string and `pasv` the passive-mode text, as far as they are filled. */
  datatype Reg = Reg(dig: nat, n: int, code: int, original: int, continuation: nat,
                     pflag: nat, pasv: string, text: string)

  const START := Reg(0, 0, 0, 0, 0, 0, "", "")

  /** pflag once a character has been looked at: a passive reply has been seen, or its numbers begin. */
  function Armed(pflag: nat, dig: nat, code: int, c: char): nat {
    var armed := if pflag == 0 && (code == 227 || code == 228 || code == 229) then 1 else pflag;
    if dig > 4 && armed == 1 && IsDigit(c) then 2 else armed
  }

  predicate Closes(c: char) { c == '\r' || c == ')' }

  function OnChar(r: Reg, c: char): Reg {
    var dig := r.dig + 1;
    var code := if dig < 4 && IsDigit(c) then r.code * 10 + Value(c) else r.code;
    var taking := Armed(r.pflag, dig, code, c);
    var dash := dig == 4 && c == '-';
    Reg(dig,
        if r.n == 0 then Value(c) else r.n,
        if dash && r.continuation > 0 then 0 else code,
        r.original,
        if dash then r.continuation + 1 else r.continuation,
        if taking == 2 && Closes(c) then 3 else taking,
        if taking == 2 && !Closes(c) && |r.pasv| < PASV_SIZE - 1 then r.pasv + [c] else r.pasv,
        if |r.text| < BUFSIZ - 1 then r.text + [c] else r.text)
  }

  /** The line just read is not the last one of the reply. */
  predicate GoesOn(r: Reg) { r.continuation > 0 && r.code != r.original }

  function NextLine(r: Reg): Reg {
    r.(dig := 0, n := 0, code := 0, text := "", original := if r.original == 0 then r.code else r.original)
  }

  /** The reply, with what is left of the stream, or the end of the stream; with the variables as they
      are then. */
  datatype Result = Got(r: Reg, rest: string) | Ended(r: Reg)

  function Refusal(verb: char, option: char): string {
    if verb == WILL || verb == WONT then [IAC, DONT, option]
    else if verb == DO || verb == DONT then [IAC, WONT, option]
    else ""
  }

  predicate Negotiates(verb: char) { verb == WILL || verb == WONT || verb == DO || verb == DONT }

  /** getreply on the stream s; the second part is what it writes to the server. */
  function Scan(s: string, r: Reg): (Result, string)
    decreases |s|
  {
    if s == "" then (Ended(r), "")
    else if s[0] == '\n' then
      if GoesOn(r) then Scan(s[1..], NextLine(r)) else (Got(r, s[1..]), "")
    else if s[0] != IAC then Scan(s[1..], OnChar(r, s[0]))
    else if |s| == 1 then (Ended(r), "")
    else if !Negotiates(s[1]) then Scan(s[2..], r)
    else if |s| == 2 then (Ended(r), Refusal(s[1], 255 as char))
    else
      var (q, w) := Scan(s[3..], r);
      (q, Refusal(s[1], s[2]) + w)
  }

  // ----- Telnet commands do not disturb replies -----

  /** The stream without Telnet commands, and the refusals they call for. */
  function Plain(s: string): string {
    if s == "" then ""
    else if s[0] != IAC then [s[0]] + Plain(s[1..])
    else if |s| == 1 then ""
    else if !Negotiates(s[1]) then Plain(s[2..])
    else if |s| == 2 then ""
    else Plain(s[3..])
  }

  function Refusals(s: string): string {
    if s == "" then ""
    else if s[0] != IAC then Refusals(s[1..])
    else if |s| == 1 then ""
    else if !Negotiates(s[1]) then Refusals(s[2..])
    else if |s| == 2 then Refusal(s[1], 255 as char)
    else Refusal(s[1], s[2]) + Refusals(s[3..])
  }

  function Cleaned(q: Result): Result {
    match q case Got(r, rest) => Got(r, Plain(rest)) case Ended(r) => Ended(r)
  }

  /** getreply sees the same reply with or without Telnet commands in the stream, and answers each
      request among those it passes by exactly one refusal, in order. */
  lemma {:induction false} TelnetIsTransparent(s: string, r: Reg)
    ensures var (q, w) := Scan(s, r);
            && Scan(Plain(s), r) == (Cleaned(q), "")
            && Refusals(s) == w + (if q.Got? then Refusals(q.rest) else "")
    decreases |s|
  {
    hide OnChar, NextLine, GoesOn, Refusal;
    if s == "" {
    } else if s[0] == '\n' {
      assert Plain(s)[1..] == Plain(s[1..]);
      if GoesOn(r) {
        TelnetIsTransparent(s[1..], NextLine(r));
      }
    } else if s[0] != IAC {
      assert Plain(s)[1..] == Plain(s[1..]);
      TelnetIsTransparent(s[1..], OnChar(r, s[0]));
    } else if |s| == 1 {
    } else if !Negotiates(s[1]) {
      TelnetIsTransparent(s[2..], r);
    } else if |s| == 2 {
    } else {
      TelnetIsTransparent(s[3..], r);
      var (q, w) := Scan(s[3..], r);
      assert Refusal(s[1], s[2]) + (w + (if q.Got? then Refusals(q.rest) else ""))
          == (Refusal(s[1], s[2]) + w) + (if q.Got? then Refusals(q.rest) else "");
    }
  }

  /** What the answers are, octet by octet: WILL (251) and WONT (252) are answered by DONT (254), DO (253)
      and DONT by WONT, each with the option of the request; any other command is not answered. */
  lemma RequestsAreRefused(verb: char, option: char, rest: string, r: Reg)
    ensures var w := Scan([255 as char, verb, option] + rest, r).1;
            && (verb == 251 as char || verb == 252 as char ==>
                  w == [255 as char, 254 as char, option] + Scan(rest, r).1)
            && (verb == 253 as char || verb == 254 as char ==>
                  w == [255 as char, 252 as char, option] + Scan(rest, r).1)
            && (verb as int < 251 || verb as int > 254 ==> w == Scan([option] + rest, r).1)
  {
    var s := [255 as char, verb, option] + rest;
    assert s[3..] == rest && s[2..] == [option] + rest;
  }

  // ----- whole lines -----

  function OnLine(r: Reg, line: string): Reg
    decreases |line|
  {
    if line == "" then r else OnChar(OnLine(r, line[..|line| - 1]), line[|line| - 1])
  }

  predicate OneLine(line: string) { '\n' !in line && IAC !in line }

  lemma {:induction false} OnLineFront(r: Reg, line: string)
    requires line != ""
    ensures OnLine(r, line) == OnLine(OnChar(r, line[0]), line[1..])
    decreases |line|
  {
    hide OnChar;
    if |line| == 1 {
      assert line[..0] == "" && line[1..] == "";
    } else {
      OnLineFront(r, line[..|line| - 1]);
      assert line[..|line| - 1][1..] == line[1..][..|line[1..]| - 1];
    }
  }

  lemma {:induction false} ScanLine(r: Reg, line: string, rest: string)
    requires OneLine(line)
    ensures Scan(line + "\n" + rest, r) ==
            var e := OnLine(r, line);
            if GoesOn(e) then Scan(rest, NextLine(e)) else (Got(e, rest), "")
    decreases |line|
  {
    hide OnChar, NextLine, GoesOn;
    var s := line + "\n" + rest;
    if line == "" {
      assert s[1..] == rest;
    } else {
      OnLineFront(r, line);
      assert s[1..] == line[1..] + "\n" + rest;
      ScanLine(OnChar(r, line[0]), line[1..], rest);
    }
  }

  lemma {:induction false} OnLineSplits(r: Reg, a: string, b: string)
    ensures OnLine(r, a + b) == OnLine(OnLine(r, a), b)
    decreases |b|
  {
    hide OnChar;
    if b == "" {
      assert a + b == a;
    } else {
      OnLineSplits(r, a, b[..|b| - 1]);
      assert (a + b)[..|a + b| - 1] == a + b[..|b| - 1];
    }
  }

  /** Behind its fourth character a line changes nothing that decides where a reply ends. */
  lemma {:induction false} TailOfLine(r: Reg, line: string)
    requires r.dig >= 4
    ensures var e := OnLine(r, line);
            && e.code == r.code && e.original == r.original && e.continuation == r.continuation
            && e.dig >= 4 && (r.n != 0 ==> e.n == r.n)
    decreases |line|
  {
    if line != "" {
      TailOfLine(r, line[..|line| - 1]);
    }
  }

  // ----- the replies of ftpd -----

  predicate IsCode(code: int) { 100 <= code <= 999 }

  /** printf ("%d") of a three-digit code */
  function Printed(code: int): string
    requires IsCode(code)
  {
    [Digit(code / 100), Digit(code / 10 % 10), Digit(code % 10)]
  }

  /** A line in the middle of a reply: printed by lreply, or by printf directly. */
  datatype Line = Marked(text: string) | Free(text: string)

  /** Lines with the same code, and the line printed by reply that ends them. */
  datatype Reply = Reply(code: int, lines: seq<Line>, last: string)

  function Body(code: int, l: Line): string
    requires IsCode(code)
  {
    match l case Marked(text) => Printed(code) + "- " + text + "\r" case Free(text) => text + "\r"
  }

  function RenderLines(code: int, lines: seq<Line>): string
    requires IsCode(code)
  {
    if lines == [] then "" else Body(code, lines[0]) + "\n" + RenderLines(code, lines[1..])
  }

  function Render(p: Reply): string
    requires IsCode(p.code)
  {
    RenderLines(p.code, p.lines) + (Printed(p.code) + " " + p.last + "\r") + "\n"
  }

  /** The number getreply reads off the beginning of a line. */
  function Leading(s: string): int {
    var a := if |s| > 0 && IsDigit(s[0]) then Value(s[0]) else 0;
    var b := if |s| > 1 && IsDigit(s[1]) then a * 10 + Value(s[1]) else a;
    if |s| > 2 && IsDigit(s[2]) then b * 10 + Value(s[2]) else b
  }

  /** A free line that would be taken for the end of the reply. */
  predicate LooksFinal(code: int, text: string) {
    Leading(text) == code && !(|text| > 3 && text[3] == '-')
  }

  /** Lines in the middle as ftpd prints them; nothing is said about the last line. */
  predicate GoodLines(p: Reply) {
    && IsCode(p.code) && (p.lines != [] ==> p.lines[0].Marked?)
    && forall l :: l in p.lines ==> OneLine(l.text) && (l.Free? ==> !LooksFinal(p.code, l.text))
  }

  predicate WellFormed(p: Reply) { GoodLines(p) && p.code != 421 && OneLine(p.last) }

  lemma CoreStep(r: Reg, c: char)
    ensures var e := OnChar(r, c);
            var dash := r.dig == 3 && c == '-';
            && e.dig == r.dig + 1 && e.original == r.original
            && e.continuation == r.continuation + (if dash then 1 else 0)
            && e.code == (if dash && r.continuation > 0 then 0
                          else if r.dig < 3 && IsDigit(c) then r.code * 10 + Value(c) else r.code)
  {
  }

  /** What the first four characters of a line that starts afresh amount to. */
  lemma HeadOfLine(r: Reg, line: string)
    requires r.dig == 0 && r.code == 0 && |line| <= 4
    ensures var e := OnLine(r, line);
            && e.dig == |line| && e.original == r.original
            && var dash := |line| == 4 && line[3] == '-';
            && e.continuation == r.continuation + (if dash then 1 else 0)
            && e.code == (if dash && r.continuation > 0 then 0 else Leading(line))
  {
    hide OnChar, OnLine;
    assert line[..|line|] == line;
    OnLineNone(r, line);
    if |line| > 0 {
      OnLineStep(r, line, 0);
      CoreStep(r, line[0]);
    }
    if |line| > 1 {
      OnLineStep(r, line, 1);
      CoreStep(OnLine(r, line[..1]), line[1]);
    }
    if |line| > 2 {
      OnLineStep(r, line, 2);
      CoreStep(OnLine(r, line[..2]), line[2]);
    }
    if |line| > 3 {
      OnLineStep(r, line, 3);
      CoreStep(OnLine(r, line[..3]), line[3]);
    }
  }

  lemma OnLineNone(r: Reg, line: string)
    ensures OnLine(r, line[..0]) == r
  {
  }

  lemma OnLineStep(r: Reg, line: string, i: nat)
    requires i < |line|
    ensures OnLine(r, line[..i + 1]) == OnChar(OnLine(r, line[..i]), line[i])
  {
    hide OnChar;
    assert line[..i + 1][..i] == line[..i];
  }

  /** How any line ends for the variables that decide whether the reply goes on. */
  lemma WholeLine(r: Reg, line: string)
    requires r.dig == 0 && r.code == 0
    ensures var e := OnLine(r, line);
            var dash := |line| > 3 && line[3] == '-';
            && e.original == r.original && e.continuation == r.continuation + (if dash then 1 else 0)
            && e.code == (if dash && r.continuation > 0 then 0 else Leading(line))
  {
    hide OnChar;
    var k := if |line| < 4 then |line| else 4;
    assert line == line[..k] + line[k..];
    OnLineSplits(r, line[..k], line[k..]);
    HeadOfLine(r, line[..k]);
    if k == 4 {
      TailOfLine(OnLine(r, line[..k]), line[k..]);
    } else {
      assert line[k..] == "";
    }
  }

  lemma {:induction false} FirstDigitStays(r: Reg, line: string)
    requires r.n != 0
    ensures OnLine(r, line).n == r.n
    decreases |line|
  {
    if line != "" {
      FirstDigitStays(r, line[..|line| - 1]);
    }
  }

  function Kept(text: string): string {
    if |text| < BUFSIZ then text else text[..BUFSIZ - 1]
  }

  lemma {:induction false} TextIsKept(r: Reg, line: string)
    requires r.text == ""
    ensures OnLine(r, line).text == Kept(line)
    decreases |line|
  {
    if line != "" {
      TextIsKept(r, line[..|line| - 1]);
    }
  }

  lemma LeadingPrinted(code: int, more: string)
    requires IsCode(code) && (more == "" || !IsDigit(more[0]))
    ensures Leading(Printed(code) + more) == code && Value(Printed(code)[0]) == code / 100
  {
    var a, b, c := code / 100, code / 10 % 10, code % 10;
    assert code / 10 == 10 * a + b && code == 10 * (code / 10) + c;
    var s := Printed(code) + more;
    assert s[0] == Digit(a) && s[1] == Digit(b) && s[2] == Digit(c);
  }

  /** Between two lines of an unfinished reply. */
  predicate Midway(r: Reg, code: int) {
    r.dig == 0 && r.n == 0 && r.code == 0 && r.text == "" && r.original == code && r.continuation > 0
  }

  /** A line that is not the last one leaves getreply waiting for the next. */
  lemma PassesLine(code: int, l: Line, r: Reg, rest: string) returns (next: Reg)
    requires IsCode(code) && OneLine(l.text) && (l.Free? ==> !LooksFinal(code, l.text))
    requires Midway(r, code) || (r == START && l.Marked?)
    ensures Scan(Body(code, l) + "\n" + rest, r) == Scan(rest, next) && Midway(next, code)
  {
    hide OnLine, Scan, Leading, OnChar;
    var line := Body(code, l);
    OneLinePrinted(code);
    assert OneLine(line);
    ScanLine(r, line, rest);
    WholeLine(r, line);
    BodyStarts(code, l);
    next := NextLine(OnLine(r, line));
  }

  /** What the start of a line in the middle says: the code with a dash, or not the code at all. */
  /** A reply of two lines in full (section 4.2 of RFC 959): a dash behind the first code, a blank behind the
      last, and CR LF at the end of both. */
  lemma TwoLines(code: int, first: string, last: string)
    requires IsCode(code)
    ensures Render(Reply(code, [Marked(first)], last)) ==
            Printed(code) + "- " + first + "\r\n" + (Printed(code) + " " + last + "\r\n")
  {
    hide Printed;
    var lines := [Marked(first)];
    assert lines[1..] == [] && RenderLines(code, []) == "";
    assert Body(code, lines[0]) + "\n" + "" == Printed(code) + "- " + first + "\r\n";
    assert (Printed(code) + " " + last + "\r") + "\n" == Printed(code) + " " + last + "\r\n";
  }

  lemma BodyStarts(code: int, l: Line)
    requires IsCode(code) && (l.Free? ==> !LooksFinal(code, l.text))
    ensures var line := Body(code, l);
            var dash := |line| > 3 && line[3] == '-';
            (l.Marked? ==> dash && Leading(line) == code) && (l.Free? ==> dash || Leading(line) != code)
  {
    var line := Body(code, l);
    if l.Marked? {
      assert line == Printed(code) + ("- " + l.text + "\r");
      LeadingPrinted(code, "- " + l.text + "\r");
      assert line[3] == '-';
    } else {
      LeadingReturn(l.text);
    }
  }

  lemma LeadingReturn(text: string)
    ensures Leading(text + "\r") == Leading(text)
    ensures |text + "\r"| > 3 && (text + "\r")[3] == '-' <==> |text| > 3 && text[3] == '-'
  {
    var s := text + "\r";
    assert forall i :: 0 <= i < |text| ==> s[i] == text[i];
    assert s[|text|] == '\r' && !IsDigit('\r');
  }

  lemma OneLinePrinted(code: int)
    requires IsCode(code)
    ensures OneLine(Printed(code))
  {
  }

  lemma {:induction false} PassesLines(code: int, lines: seq<Line>, r: Reg, rest: string) returns (next: Reg)
    requires IsCode(code) && (Midway(r, code) || (r == START && lines != [] && lines[0].Marked?))
    requires forall l :: l in lines ==> OneLine(l.text) && (l.Free? ==> !LooksFinal(code, l.text))
    ensures Scan(RenderLines(code, lines) + rest, r) == Scan(rest, next) && Midway(next, code)
    decreases |lines|
  {
    hide Scan;
    if lines == [] {
      assert RenderLines(code, lines) + rest == rest;
      return r;
    }
    var more := RenderLines(code, lines[1..]) + rest;
    assert RenderLines(code, lines) + rest == Body(code, lines[0]) + "\n" + more;
    var mid := PassesLine(code, lines[0], r, more);
    next := PassesLines(code, lines[1..], mid, rest);
  }

  /** The variables of getreply when it returns from reply p. */
  predicate Reports(r: Reg, p: Reply)
    requires IsCode(p.code)
  {
    r.code == p.code && r.n == p.code / 100 && r.text == Kept(Printed(p.code) + " " + p.last + "\r")
  }

  lemma LastLine(p: Reply, r: Reg, rest: string)
    requires WellFormed(p) && (Midway(r, p.code) || r == START)
    ensures var line := Printed(p.code) + " " + p.last + "\r";
            Scan(line + "\n" + rest, r) == (Got(OnLine(r, line), rest), "") && Reports(OnLine(r, line), p)
  {
    hide OnLine;
    var line := Printed(p.code) + " " + p.last + "\r";
    assert line == Printed(p.code) + (" " + p.last + "\r");
    OneLinePrinted(p.code);
    ScanLine(r, line, rest);
    WholeLine(r, line);
    LeadingPrinted(p.code, " " + p.last + "\r");
    TextIsKept(r, line);
    OnLineFront(r, line);
    FirstDigitStays(OnChar(r, line[0]), line[1..]);
  }

  /** One getreply call takes exactly one reply of the server off the stream, however many lines it
      has, and reports its code and its first digit. */
  lemma TakesOneReply(p: Reply, rest: string) returns (r: Reg)
    requires WellFormed(p)
    ensures Scan(Render(p) + rest, START) == (Got(r, rest), "") && Reports(r, p)
  {
    hide Scan, OnLine;
    var line := Printed(p.code) + " " + p.last + "\r";
    var end := line + "\n" + rest;
    assert Render(p) + rest == RenderLines(p.code, p.lines) + end;
    var mid := START;
    if p.lines == [] {
      assert RenderLines(p.code, p.lines) + end == end;
    } else {
      mid := PassesLines(p.code, p.lines, START, end);
    }
    LastLine(p, mid, rest);
    r := OnLine(mid, line);
  }

  /** Between the lines of a reply, a free line ends it exactly if its leading digits form the code
      and no dash follows them. */
  lemma FreeLineEndsReply(code: int, text: string, r: Reg, rest: string)
    requires IsCode(code) && OneLine(text) && Midway(r, code)
    ensures var e := OnLine(r, text + "\r");
            Scan(text + "\r" + "\n" + rest, r) ==
            if LooksFinal(code, text) then (Got(e, rest), "") else Scan(rest, NextLine(e))
  {
    hide OnLine, Scan, Leading, OnChar;
    var line := text + "\r";
    ScanLine(r, line, rest);
    WholeLine(r, line);
    LeadingReturn(text);
  }

  /** The length of the first line of a text. */
  function Break(s: string): (k: nat)
    ensures k <= |s| && '\n' !in s[..k] && (k < |s| ==> s[k] == '\n')
  {
    if s == "" || s[0] == '\n' then 0
    else
      var k := Break(s[1..]);
      assert s[..k + 1] == [s[0]] + s[1..][..k];
      k + 1
  }

  /** The first line of a text that begins with the code ends the reply there. */
  lemma CodeLineEnds(code: int, text: string, r: Reg, rest: string)
    requires IsCode(code) && OneLine(text) && (Midway(r, code) || r == START)
    ensures var line := Printed(code) + " " + text;
            Scan(line + "\n" + rest, r) == (Got(OnLine(r, line), rest), "")
  {
    hide OnLine, Scan, Leading, OnChar;
    var line := Printed(code) + " " + text;
    assert line == Printed(code) + (" " + text);
    OneLinePrinted(code);
    ScanLine(r, line, rest);
    WholeLine(r, line);
    LeadingPrinted(code, " " + text);
  }

  lemma FirstIsOneLine(text: string)
    requires IAC !in text
    ensures OneLine(text[..Break(text)])
  {
  }

  lemma RenderNoLines(code: int, end: string)
    requires IsCode(code)
    ensures RenderLines(code, []) + end == end
  {
  }

  /** A rendered reply, cut at the first line feed in the text of its last line. */
  lemma RenderCut(p: Reply, rest: string)
    requires IsCode(p.code) && '\n' in p.last
    ensures var k := Break(p.last);
            Render(p) + rest == RenderLines(p.code, p.lines)
              + (Printed(p.code) + " " + p.last[..k] + "\n" + (p.last[k + 1..] + "\r" + "\n" + rest))
  {
    hide RenderLines, Printed;
    var k := Break(p.last);
    assert p.last == p.last[..k] + "\n" + p.last[k + 1..];
  }

  /** A line feed in the last line of a reply ends the reply for getreply; what stands behind it is
      left in the stream, where the next call takes it for a reply of its own. */
  lemma LineFeedCutsReply(p: Reply, rest: string) returns (r: Reg)
    requires GoodLines(p) && IAC !in p.last && '\n' in p.last
    ensures var k := Break(p.last);
            Scan(Render(p) + rest, START) == (Got(r, p.last[k + 1..] + "\r" + "\n" + rest), "")
  {
    hide Scan, OnLine, RenderLines, Render, Printed, OneLine, Break;
    var k := Break(p.last);
    var first, left := p.last[..k], p.last[k + 1..] + "\r" + "\n" + rest;
    var end := Printed(p.code) + " " + first + "\n" + left;
    RenderCut(p, rest);
    FirstIsOneLine(p.last);
    var mid := START;
    if p.lines == [] {
      RenderNoLines(p.code, end);
    } else {
      mid := PassesLines(p.code, p.lines, START, end);
    }
    CodeLineEnds(p.code, first, mid, left);
    r := OnLine(mid, Printed(p.code) + " " + first);
  }

  /** As fatal prints it: the text ends in a line feed, and the next call takes the empty line that
      is left over for a reply with no code. */
  lemma LineFeedDesynchronizes(p: Reply, text: string, rest: string) returns (r: Reg, q: Reg)
    requires GoodLines(p) && p.last == text + "\n" && OneLine(text)
    ensures Scan(Render(p) + rest, START) == (Got(r, "\r" + "\n" + rest), "")
    ensures Scan("\r" + "\n" + rest, START) == (Got(q, rest), "") && q.code == 0
  {
    hide OnLine, Scan, Leading, OnChar, Render, GoodLines;
    assert p.last[|text|] == '\n' && p.last[..|text|] == text;
    assert Break(p.last) == |text| && p.last[|text| + 1..] == "";
    r := LineFeedCutsReply(p, rest);
    assert "" + "\r" + "\n" + rest == "\r" + "\n" + rest;
    ScanLine(START, "\r", rest);
    WholeLine(START, "\r");
    LeadingReturn("");
    LeadingNothing();
    assert "" + "\r" == "\r";
    q := OnLine(START, "\r");
  }

  lemma LeadingNothing()
    ensures Leading("") == 0
  {
  }

  // ----- any text at all in the last line -----

  /** Every Telnet command in s is complete. */
  predicate Closed(s: string) {
    s == "" ||
    if s[0] != IAC then Closed(s[1..])
    else |s| > 1 && if !Negotiates(s[1]) then Closed(s[2..]) else |s| > 2 && Closed(s[3..])
  }

  /** The length of what s begins with: a Telnet command, or a character. */
  function Unit(s: string): (k: nat)
    requires s != "" && Closed(s)
    ensures 0 < k <= |s| && Closed(s[k..])
  {
    if s[0] != IAC then 1 else if !Negotiates(s[1]) then 2 else 3
  }

  /** A carriage return completes whatever command stands at the end of a text. */
  lemma {:induction false} ReturnCloses(s: string)
    ensures Closed(s + "\r")
    decreases |s|
  {
    var t := s + "\r";
    if s == "" {
      assert t[1..] == "";
    } else if s[0] != IAC {
      assert t[1..] == s[1..] + "\r";
      ReturnCloses(s[1..]);
    } else if |s| == 1 {
      assert t[1] == '\r' && t[2..] == "";
    } else if !Negotiates(s[1]) {
      assert t[2..] == s[2..] + "\r";
      ReturnCloses(s[2..]);
    } else if |s| == 2 {
      assert t[3..] == "";
    } else {
      assert t[3..] == s[3..] + "\r";
      ReturnCloses(s[3..]);
    }
  }

  /** getreply on a line with Telnet commands in it does what it does on the line without them. */
  lemma {:induction false} ScanClosed(r: Reg, line: string, rest: string)
    requires Closed(line) && '\n' !in Plain(line)
    ensures Scan(line + "\n" + rest, r).0 ==
            var e := OnLine(r, Plain(line));
            if GoesOn(e) then Scan(rest, NextLine(e)).0 else Got(e, rest)
    decreases |line|
  {
    hide OnChar, NextLine, GoesOn, OnLine;
    var s := line + "\n" + rest;
    if line == "" {
      assert s[1..] == rest;
      OnLineNone(r, "");
    } else {
      var k := Unit(line);
      assert s[k..] == line[k..] + "\n" + rest;
      if line[0] != IAC {
        assert Plain(line) == [line[0]] + Plain(line[1..]);
        assert Plain(line)[1..] == Plain(line[1..]) && Plain(line)[0] == line[0];
        OnLineFront(r, Plain(line));
        ScanClosed(OnChar(r, line[0]), line[1..], rest);
      } else {
        ScanClosed(r, line[k..], rest);
      }
    }
  }

  /** The first line feed that is not part of a Telnet command. */
  lemma {:induction false} FirstFeed(s: string) returns (k: nat)
    requires '\n' in Plain(s)
    ensures k < |s| && s[k] == '\n' && Closed(s[..k]) && '\n' !in Plain(s[..k])
    decreases |s|
  {
    if s[0] == '\n' {
      return 0;
    }
    var u := if s[0] != IAC then 1 else if !Negotiates(s[1]) then 2 else 3;
    var j := FirstFeed(s[u..]);
    k := u + j;
    assert s[..k][u..] == s[u..][..j];
    assert s[..k][0] == s[0];
  }

  /** Lines without IAC are left alone by the search for Telnet commands. */
  lemma {:induction false} PlainFront(a: string, b: string)
    requires IAC !in a
    ensures Plain(a + b) == a + Plain(b) && (Closed(a + b) <==> Closed(b))
    decreases |a|
  {
    if a == "" {
      assert a + b == b;
    } else {
      assert (a + b)[1..] == a[1..] + b;
      PlainFront(a[1..], b);
    }
  }

  /** The first line of a text behind the code ends the reply there. */
  lemma ClosedLineEnds(code: int, text: string, r: Reg, rest: string)
    requires IsCode(code) && Closed(text) && '\n' !in Plain(text) && (Midway(r, code) || r == START)
    ensures var line := Printed(code) + " ";
            Scan(line + text + "\n" + rest, r).0 == Got(OnLine(r, line + Plain(text)), rest)
  {
    hide OnLine, Scan, Leading, OnChar, Plain, Closed;
    var head := Printed(code) + " ";
    OneLinePrinted(code);
    PlainFront(head, text);
    ScanClosed(r, head + text, rest);
    assert head + Plain(text) == Printed(code) + (" " + Plain(text));
    WholeLine(r, head + Plain(text));
    LeadingPrinted(code, " " + Plain(text));
  }

  /** A whole reply whose last line begins with the text first, and goes on behind a line feed. */
  lemma EndsAtFeed(p: Reply, first: string, rest: string) returns (r: Reg)
    requires GoodLines(p) && Closed(first) && '\n' !in Plain(first)
    ensures Scan(RenderLines(p.code, p.lines) + (Printed(p.code) + " " + first + "\n" + rest), START).0
         == Got(r, rest)
  {
    hide Scan, OnLine, RenderLines, Printed, Plain, Closed;
    var end := Printed(p.code) + " " + first + "\n" + rest;
    var mid := START;
    if p.lines == [] {
      RenderNoLines(p.code, end);
    } else {
      mid := PassesLines(p.code, p.lines, START, end);
    }
    ClosedLineEnds(p.code, first, mid, rest);
    r := OnLine(mid, Printed(p.code) + " " + Plain(first));
  }

  lemma RenderSplit(p: Reply, rest: string, k: nat)
    requires var last := p.last + "\r"; IsCode(p.code) && k < |last| && last[k] == '\n'
    ensures var last := p.last + "\r";
            Render(p) + rest == RenderLines(p.code, p.lines)
              + (Printed(p.code) + " " + last[..k] + "\n" + (last[k + 1..] + "\n" + rest))
  {
    hide RenderLines, Printed;
    var last := p.last + "\r";
    assert last == last[..k] + "\n" + last[k + 1..];
    assert Render(p) == RenderLines(p.code, p.lines) + (Printed(p.code) + " " + last) + "\n";
  }

  lemma RenderWhole(p: Reply, rest: string)
    requires IsCode(p.code)
    ensures Render(p) + rest == RenderLines(p.code, p.lines)
              + (Printed(p.code) + " " + (p.last + "\r") + "\n" + rest)
  {
    hide RenderLines, Printed;
  }

  /** One call of getreply takes a reply off the stream if and only if no line feed is left in the text
      of its last line once the Telnet commands are taken out of it. */
  lemma TakesReplyIffNoLineFeed(p: Reply, rest: string)
    requires GoodLines(p)
    ensures (exists r :: Scan(Render(p) + rest, START).0 == Got(r, rest)) <==> '\n' !in Plain(p.last + "\r")
  {
    hide Scan, Render, RenderLines, Printed, Plain, Closed, GoodLines;
    var last := p.last + "\r";
    GoodCode(p);
    if '\n' in Plain(last) {
      var k := FirstFeed(last);
      RenderSplit(p, rest, k);
      var r := EndsAtFeed(p, last[..k], last[k + 1..] + "\n" + rest);
      assert |last[k + 1..] + "\n" + rest| > |rest|;
    } else {
      ReturnCloses(p.last);
      RenderWhole(p, rest);
      var r := EndsAtFeed(p, last, rest);
    }
  }

  lemma GoodCode(p: Reply)
    requires GoodLines(p)
    ensures IsCode(p.code)
  {
  }

  // ----- a whole session -----

  function Stream(ps: seq<Reply>): string
    requires forall i :: 0 <= i < |ps| ==> WellFormed(ps[i])
  {
    if ps == [] then "" else assert WellFormed(ps[0]); Render(ps[0]) + Stream(ps[1..])
  }

  /** The codes and first digits that n successive calls of getreply report. */
  function Calls(s: string, n: nat): seq<(int, int)>
    decreases n
  {
    if n == 0 then []
    else
      match Scan(s, START).0
      case Ended(_) => []
      case Got(r, rest) => [(r.code, r.n)] + Calls(rest, n - 1)
  }

  function Codes(ps: seq<Reply>): seq<(int, int)> {
    if ps == [] then [] else [(ps[0].code, ps[0].code / 100)] + Codes(ps[1..])
  }

  /** Successive calls of getreply split the stream of the server into its replies, whatever Telnet
      commands are mixed into it. */
  lemma {:induction false} SplitsReplies(ps: seq<Reply>, s: string, rest: string)
    requires forall i :: 0 <= i < |ps| ==> WellFormed(ps[i])
    requires Plain(s) == Stream(ps) + rest
    ensures Calls(s, |ps|) == Codes(ps)
    decreases |ps|
  {
    hide Scan, Plain;
    if ps != [] {
      var more := Stream(ps[1..]) + rest;
      assert Stream(ps) + rest == Render(ps[0]) + more;
      var r := TakesOneReply(ps[0], more);
      TelnetIsTransparent(s, START);
      var q := Scan(s, START).0;
      SplitsReplies(ps[1..], q.rest, rest);
    }
  }
}
