/** The reply routines of ftpd/ftpd.c, which append to the control connection. */
module FtpServer {
  import opened FtpReplies

  /** The lines of a text: line feeds separate them, and one at the end opens an empty line. */
  function Lines(text: string): (ls: seq<string>)
    ensures ls != []
  {
    if text == "" then [""]
    else if text[0] == '\n' then [""] + Lines(text[1..])
    else
      var ls := Lines(text[1..]);
      [[text[0]] + ls[0]] + ls[1..]
  }

  function Joined(ls: seq<string>): string
    requires ls != []
  {
    if |ls| == 1 then ls[0] else ls[0] + "\n" + Joined(ls[1..])
  }

  /** Cutting a text into lines loses nothing and leaves no line feed in a line. */
  lemma {:induction false} LinesPartition(text: string)
    ensures Joined(Lines(text)) == text
    ensures forall i :: 0 <= i < |Lines(text)| ==> '\n' !in Lines(text)[i]
    decreases |text|
  {
    if text != "" {
      LinesPartition(text[1..]);
      var ls := Lines(text[1..]);
      if text[0] == '\n' {
        assert ([""] + ls)[1..] == ls;
        assert "" + "\n" + text[1..] == text;
      } else {
        assert ([[text[0]] + ls[0]] + ls[1..])[1..] == ls[1..];
        assert Joined(Lines(text)) == [text[0]] + Joined(ls);
      }
    }
  }

  lemma {:induction false} FirstLine(s: string)
    ensures var k := Break(s); Lines(s) == [s[..k]] + (if k < |s| then Lines(s[k + 1..]) else [])
    decreases |s|
  {
    if s != "" && s[0] != '\n' {
      FirstLine(s[1..]);
      var k := Break(s);
      assert s[..k] == [s[0]] + s[1..][..k - 1];
      if k < |s| {
        assert s[1..][k..] == s[k + 1..];
      }
    }
  }

  function Marks(ls: seq<string>): seq<Line> {
    seq(|ls|, i requires 0 <= i < |ls| => Marked(ls[i]))
  }

  lemma {:induction false} RenderAppends(code: int, a: seq<Line>, b: seq<Line>)
    requires IsCode(code)
    ensures RenderLines(code, a + b) == RenderLines(code, a) + RenderLines(code, b)
    decreases |a|
  {
    hide Body;
    if a == [] {
      assert a + b == b;
    } else {
      RenderAppends(code, a[1..], b);
      assert (a + b)[0] == a[0] && (a + b)[1..] == a[1..] + b;
    }
  }

  class Server {
    var out: string

    constructor ()
      ensures out == ""
    {
      out := "";
    }

    /** reply */
    method Reply(n: int, text: string)
      requires IsCode(n)
      modifies this
      ensures out == old(out) + (Printed(n) + " " + text + "\r") + "\n"
    {
      out := out + Printed(n) + " ";
      out := out + text;
      out := out + "\r\n";
    }

    /** lreply */
    method Lreply(n: int, text: string)
      requires IsCode(n)
      modifies this
      ensures out == old(out) + RenderLines(n, [Marked(text)])
    {
      assert [Marked(text)][1..] == [] && RenderLines(n, []) == "";
      out := out + Printed(n) + "- ";
      out := out + text;
      out := out + "\r\n";
    }

    /** lreply_multiline: one marked line for each line of the text. */
    method LreplyMultiline(n: int, text: string)
      requires IsCode(n)
      modifies this
      ensures out == old(out) + RenderLines(n, Marks(Lines(text)))
    {
      hide Lines, RenderLines, Marks, Body, Printed, Break;
      var p1, stop := text, false;
      ghost var base, done := out, [];
      NoLines(n);
      assert out == base + RenderLines(n, done) && done + Marks(Lines(p1)) == Marks(Lines(text));
      while !stop
        invariant out == base + RenderLines(n, done)
        invariant done + (if stop then [] else Marks(Lines(p1))) == Marks(Lines(text))
        decreases !stop, |p1|
      {
        var k := Break(p1);
        stop := k == |p1|;
        Lreply(n, p1[..k]);
        Turn(base, n, done, p1, Marks(Lines(text)));
        done := done + [Marked(p1[..k])];
        p1 := if stop then "" else p1[k + 1..];
      }
      assert done + [] == done;
    }
  }

  lemma {:induction false} NoStrangers(text: string, c: char)
    requires c !in text && c != '\n'
    ensures forall i :: 0 <= i < |Lines(text)| ==> c !in Lines(text)[i]
    decreases |text|
  {
    if text != "" {
      NoStrangers(text[1..], c);
    }
  }

  /** Whatever lines the message has, the client takes it with the line that ends it as one reply. */
  lemma MessageIsOneReply(n: int, message: string, last: string, rest: string) returns (r: Reg)
    requires IsCode(n) && n != 421 && IAC !in message && OneLine(last)
    ensures Scan(Render(FtpReplies.Reply.Reply(n, Marks(Lines(message)), last)) + rest, START) == (Got(r, rest), "")
    ensures r.code == n && r.n == n / 100 && r.text == Kept(Printed(n) + " " + last + "\r")
  {
    hide Scan, Render, Lines;
    LinesPartition(message);
    NoStrangers(message, IAC);
    var p := FtpReplies.Reply.Reply(n, Marks(Lines(message)), last);
    forall l | l in p.lines ensures OneLine(l.text) && l.Marked? {
      var i :| 0 <= i < |p.lines| && p.lines[i] == l;
    }
    r := TakesOneReply(p, rest);
  }

  lemma NoMarks()
    ensures Marks([]) == []
  {
  }

  lemma NoLines(n: int)
    requires IsCode(n)
    ensures RenderLines(n, []) == ""
  {
  }

  /** One turn of the loop of lreply_multiline. */
  lemma Turn(base: string, n: int, done: seq<Line>, p1: string, all: seq<Line>)
    requires IsCode(n) && done + Marks(Lines(p1)) == all
    ensures var k := Break(p1);
            && base + RenderLines(n, done) + RenderLines(n, [Marked(p1[..k])])
                == base + RenderLines(n, done + [Marked(p1[..k])])
            && done + [Marked(p1[..k])] + (if k == |p1| then [] else Marks(Lines(p1[k + 1..]))) == all
  {
    hide Lines, RenderLines, Marks, Break;
    var k := Break(p1);
    var more := if k == |p1| then [] else Lines(p1[k + 1..]);
    FirstLine(p1);
    RenderAppends(n, done, [Marked(p1[..k])]);
    MarksFront(p1[..k], more);
    NoMarks();
    assert done + [Marked(p1[..k])] + Marks(more) == done + ([Marked(p1[..k])] + Marks(more));
  }

  lemma MarksFront(l: string, ls: seq<string>)
    ensures Marks([l] + ls) == [Marked(l)] + Marks(ls)
  {
  }
}
