/** getreply of ftp/ftp.c as it runs, character by character, on the control connection. */
module FtpControl {
  import opened Basics
  import opened FtpReplies

  const TRANSIENT := 4
  const NO_DIGIT := 0

  /** Behind the text taken so far, the buffer is as it was, but for the NUL that ends the text. */
  predicate Behind(was: seq<char>, pt: nat, pflag: nat, now: seq<char>)
    requires |was| == |now| == PASV_SIZE && pt < PASV_SIZE
  {
    if pflag == 3 then now[pt] == '\0' && now[pt + 1..] == was[pt + 1..] else now[pt..] == was[pt..]
  }

  /** The buffer after a reply whose text has been taken as far as r says. */
  predicate Overlaid(was: seq<char>, r: Reg, now: seq<char>)
    requires |was| == |now| == PASV_SIZE
  {
    |r.pasv| < PASV_SIZE && now[..|r.pasv|] == r.pasv && Behind(was, |r.pasv|, r.pflag, now)
  }

  lemma BehindNothing(was: seq<char>)
    requires |was| == PASV_SIZE
    ensures Behind(was, 0, 0, was)
  {
  }

  class Control {
    /** What the server has sent and getreply has not read, and what was written to the server. */
    var cin: string
    var cout: string

    var code: int
    var replyString: string
    var pasv: seq<char>
    var lost: bool

    /** The passive-mode text is a buffer of fixed size. */
    predicate Valid()
      reads this
    {
      |pasv| == PASV_SIZE
    }

    constructor (cin: string)
      ensures Valid() && this.cin == cin && cout == "" && !lost && forall i :: 0 <= i < PASV_SIZE ==> pasv[i] == '\0'
    {
      this.cin, cout, code, replyString, lost := cin, "", 0, "", false;
      pasv := seq(PASV_SIZE, i => '\0');
    }

    method Getc() returns (eof: bool, c: char)
      modifies this`cin
      ensures eof <==> old(cin) == ""
      ensures eof ==> cin == ""
      ensures !eof ==> c == old(cin)[0] && cin == old(cin)[1..]
    {
      eof, c := cin == "", ' ';
      if !eof {
        c := cin[0];
        cin := cin[1..];
      }
    }

    /** A Telnet command behind IAC: requests are refused, everything else is dropped. */
    method TelnetCommand()
      requires cin != ""
      modifies this`cin, this`cout
      ensures var s := old(cin);
              if !Negotiates(s[0]) then cin == s[1..] && cout == old(cout)
              else if |s| == 1 then cin == "" && cout == old(cout) + Refusal(s[0], 255 as char)
              else cin == s[2..] && cout == old(cout) + Refusal(s[0], s[1])
    {
      ghost var s := cin;
      var eof, verb := Getc();
      if verb == WILL || verb == WONT {
        var option;
        eof, option := Getc();
        cout := cout + [IAC, DONT, if eof then 255 as char else option];
      } else if verb == DO || verb == DONT {
        var option;
        eof, option := Getc();
        cout := cout + [IAC, WONT, if eof then 255 as char else option];
      }
      assert |s| > 1 ==> s[1..][1..] == s[2..];
    }

    /** The part of getreply that looks out for a passive reply and copies its numbers. */
    method TakePassive(c: char, dig: nat, code: int, pflag: nat, pt: nat, ghost was: seq<char>)
      returns (flag: nat, end: nat)
      requires Valid() && |was| == PASV_SIZE && pt < PASV_SIZE && Behind(was, pt, pflag, pasv)
      modifies this`pasv
      ensures Valid() && end < PASV_SIZE && Behind(was, end, flag, pasv)
      ensures var taking := Armed(pflag, dig, code, c);
              && flag == (if taking == 2 && Closes(c) then 3 else taking)
              && pasv[..end] == (if taking == 2 && !Closes(c) && pt < PASV_SIZE - 1 then old(pasv)[..pt] + [c]
                                 else old(pasv)[..pt])
    {
      flag, end := pflag, pt;
      if flag == 0 && (code == 227 || code == 228 || code == 229) {
        flag := 1;
      }
      if dig > 4 && flag == 1 && IsDigit(c) {
        flag := 2;
      }
      if flag == 2 {
        if c != '\r' && c != ')' {
          if end < PASV_SIZE - 1 {
            pasv := pasv[end := c];
            end := end + 1;
          }
        } else {
          pasv := pasv[end := '\0'];
          flag := 3;
        }
      }
    }

    /** getreply: the first digit of the reply; 0 or 4 at the end of the connection. */
    method GetReply(expecteof: bool) returns (n: int)
      requires Valid()
      modifies this
      ensures Valid()
      ensures var (q, w) := Scan(old(cin), START);
              && cout == old(cout) + w
              && match q {
                   case Got(r, rest) =>
                     && n == r.n && code == r.code && cin == rest && replyString == r.text
                     && Overlaid(old(pasv), r, pasv)
                     && lost == (old(lost) || r.code == 421 || r.original == 421)
                   case Ended(r) =>
                     && Overlaid(old(pasv), r, pasv)
                     && n == (if expecteof then NO_DIGIT else TRANSIENT) && code == (if expecteof then 221 else 421)
                     && lost == (old(lost) || !expecteof)
                 }
    {
      hide Scan, Behind, Armed, Closes;
      var dig: nat, continuation: nat, pflag: nat := 0, 0, 0;
      var original := 0;
      var pt: nat, cp := 0, "";
      ghost var goal := Scan(cin, START);
      n, code := 0, 0;
      BehindNothing(pasv);
      assert START == Reg(dig, n, code, original, continuation, pflag, pasv[..pt], cp);
      while true
        invariant lost == old(lost) && old(cout) <= cout
        invariant Valid() && pt < PASV_SIZE && Behind(old(pasv), pt, pflag, pasv)
        invariant var (q, w) := Scan(cin, Reg(dig, n, code, original, continuation, pflag, pasv[..pt], cp));
                  goal.0 == q && old(cout) + goal.1 == cout + w
        decreases |cin|
      {
        ghost var r, s := Reg(dig, n, code, original, continuation, pflag, pasv[..pt], cp), cin;
        ScanStep(s, r);
        var eof, c := Getc();
        if eof {
          if expecteof {
            code := 221;
            return NO_DIGIT;
          }
          lost := true;
          code := 421;
          return TRANSIENT;
        }
        if c == '\n' {
          if continuation > 0 && code != original {
            if original == 0 {
              original := code;
            }
            dig, n, code, cp := 0, 0, 0, "";
            continue;
          }
          replyString := cp;
          if code == 421 || original == 421 {
            lost := true;
          }
          return;
        }
        if c == IAC {
          if cin == "" {
            continue;
          }
          TelnetCommand();
          continue;
        }
        dig := dig + 1;
        if dig < 4 && IsDigit(c) {
          code := code * 10 + Value(c);
        }
        pflag, pt := TakePassive(c, dig, code, pflag, pt, old(pasv));
        if dig == 4 && c == '-' {
          if continuation > 0 {
            code := 0;
          }
          continuation := continuation + 1;
        }
        if n == 0 {
          n := Value(c);
        }
        if |cp| < BUFSIZ - 1 {
          cp := cp + [c];
        }
        assert Reg(dig, n, code, original, continuation, pflag, pasv[..pt], cp) == OnChar(r, c);
      }
    }
  }

  /** One turn of getreply: what Scan does with the first characters of the stream. */
  lemma ScanStep(s: string, r: Reg)
    ensures s == "" ==> Scan(s, r) == (Ended(r), "")
    ensures s != "" && s[0] == '\n' ==>
      Scan(s, r) == if GoesOn(r) then Scan(s[1..], NextLine(r)) else (Got(r, s[1..]), "")
    ensures s != "" && s[0] != '\n' && s[0] != IAC ==> Scan(s, r) == Scan(s[1..], OnChar(r, s[0]))
    ensures s != "" && s[0] == IAC && |s| == 1 ==> Scan(s, r) == Scan(s[1..], r)
    ensures s != "" && s[0] == IAC && |s| > 1 ==> ScanCommand(s[1..], r, Scan(s, r))
  {
    hide OnChar, GoesOn, NextLine, Refusal;
    if s != "" && s[0] == IAC && |s| > 1 {
      CommandStep(s, r);
    }
  }

  /** The same behind an IAC, with t for the rest of the stream. */
  predicate ScanCommand(t: string, r: Reg, whole: (Result, string)) {
    t != "" &&
    if !Negotiates(t[0]) then whole == Scan(t[1..], r)
    else if |t| == 1 then whole == (Ended(r), Refusal(t[0], 255 as char)) && Scan("", r) == (Ended(r), "")
    else whole == (Scan(t[2..], r).0, Refusal(t[0], t[1]) + Scan(t[2..], r).1)
  }

  lemma CommandStep(s: string, r: Reg)
    requires |s| > 1 && s[0] == IAC
    ensures ScanCommand(s[1..], r, Scan(s, r))
  {
    hide OnChar, GoesOn, NextLine, Refusal;
    assert s[1..][1..] == s[2..];
    if |s| > 2 {
      assert s[1..][2..] == s[3..];
    }
  }
}
