/** The interpreter of ifconfig/printif.c as it runs: a cursor, a depth and two output columns that
    are updated step by step.  Each routine is proved against the function of TemplateInterpreter. */
module TemplatePrinter {
  import opened Basics
  import opened TemplateOutput
  import opened TemplateInterpreter
  import opened TemplateOverrun
  import opened TemplateTrees

  /** How a routine comes back: it returns, the process has ended, or it has left the text. */
  datatype Status = Running | Exited | OutOfText

  // ----- one turn of the scanning loop -----

  lemma StepPlain(env: Env, s: string, nested: bool, quiet: bool, o: Out)
    requires !AtEnd(s, nested) && s[0] != '$'
    ensures Interpret(env, s, nested, quiet, o) == Interpret(env, s[1..], nested, quiet, Echo(quiet, o, s[0]))
  {
  }

  lemma StepEscape(env: Env, s: string, nested: bool, quiet: bool, o: Out)
    requires |s| > 1 && s[0] == '$' && s[1] != '{'
    ensures Interpret(env, s, nested, quiet, o) ==
            var p := if s[1] == '$' || s[1] == '}' then o else Echo(quiet, o, '$');
            Interpret(env, s[2..], nested, quiet, Echo(quiet, p, s[1]))
  {
  }

  lemma StepDump(env: Env, s: string, nested: bool, quiet: bool, o: Out)
    requires |s| > 1 && s[0] == '$' && s[1] == '{' && IndexOf(s[2..], '}') == |s| - 2
    ensures Interpret(env, s, nested, quiet, o) == Interpret(env, "", nested, quiet, PutString(o, s))
  {
  }

  lemma StepCall(env: Env, s: string, nested: bool, quiet: bool, o: Out, q: nat)
    requires |s| > 1 && s[0] == '$' && s[1] == '{' && q == IndexOf(s[2..], '}') < |s| - 2
    ensures var a := Arguments(env, s[2 + q + 1..], o);
            && (a.Lost? ==> Interpret(env, s, nested, quiet, o) == Overrun(a.out))
            && (a.Args? && quiet ==>
                Interpret(env, s, nested, quiet, o) == Interpret(env, a.rest, nested, quiet, a.out))
            && (a.Args? && !quiet ==>
                  var h := Handle(env, s[2..2 + q], a.args, a.out, |s|);
                  var r := if h.Done? then Interpret(env, a.rest, nested, quiet, h.out) else h;
                  Interpret(env, s, nested, quiet, o) == r)
  {
    hide Handle;
  }

  lemma StepArgument(env: Env, s: string, o: Out)
    requires s != "" && s[0] == '{'
    ensures var r := Interpret(env, s[1..], true, true, o);
            && (!r.Done? ==> Arguments(env, s, o) == Lost(r.out))
            && (r.Done? ==>
                  Arguments(env, s, o) ==
                  WithFirst(s[1..|s| - |r.rest|], Arguments(env, if r.rest != "" then r.rest[1..] else r.rest, r.out)))
  {
    hide Interpret;
  }

  function Prepended(args: seq<string>, more: Scan): Scan {
    if more.Lost? then more else more.(args := args + more.args)
  }

  lemma PrependedAdds(args: seq<string>, arg: string, more: Scan)
    ensures Prepended(args, WithFirst(arg, more)) == Prepended(args + [arg], more)
  {
    if more.Args? {
      assert args + ([arg] + more.args) == (args + [arg]) + more.args;
    }
  }

  lemma NoMoreArguments(env: Env, s: string, o: Out)
    requires s == "" || s[0] != '{'
    ensures Arguments(env, s, o) == Args([], s, o)
  {
  }

  lemma Ends(env: Env, s: string, nested: bool, quiet: bool, o: Out)
    requires AtEnd(s, nested)
    ensures Interpret(env, s, nested, quiet, o) == Done(s, o)
  {
  }

  lemma Overruns(env: Env, s: string, nested: bool, quiet: bool, o: Out)
    requires s == "$"
    ensures Interpret(env, s, nested, quiet, o) == Overrun(Echo(quiet, Echo(quiet, o, '$'), '\0'))
  {
  }

  class Printer {
    const env: Env
    var format: string
    var depth: nat
    var stdout: string
    var columnStdout: nat
    var stderr: string
    var columnStderr: nat
    var toError: bool
    var hadOutput: bool

    ghost function Output(): Out
      reads this
    {
      Out(stdout, columnStdout, stderr, columnStderr, toError, hadOutput)
    }

    /** The routine did what the function says, and left `depth` at d. */
    ghost predicate Follows(r: Outcome, st: Status, d: nat)
      reads this
    {
      match r
      case Done(_, o) => st == Running && Output() == o && depth == d
      case Halt(o) => st == Exited && Output() == o
      case Overrun(o) => st == OutOfText && Output() == o
    }

    constructor (env: Env)
      ensures this.env == env && Output() == Out("", 0, "", 0, false, false) && format == "" && depth == 0
    {
      this.env := env;
      format, depth := "", 0;
      stdout, columnStdout, stderr, columnStderr, toError, hadOutput := "", 0, "", 0, false, false;
    }

    method Put(c: char)
      modifies this
      ensures Output() == PutChar(old(Output()), c) && format == old(format) && depth == old(depth)
    {
      if toError {
        stderr, columnStderr := stderr + [c], Moved(columnStderr, c);
      } else {
        stdout, columnStdout := stdout + [c], Moved(columnStdout, c);
      }
      hadOutput := true;
    }

    method PutText(s: string)
      modifies this
      ensures Output() == PutString(old(Output()), s) && format == old(format) && depth == old(depth)
    {
      for i := 0 to |s|
        invariant PutString(Output(), s[i..]) == PutString(old(Output()), s)
        invariant format == old(format) && depth == old(depth)
      {
        assert s[i..][1..] == s[i + 1..];
        Put(s[i]);
      }
    }

    method PrintfText(s: string)
      modifies this
      ensures Output() == Printf(old(Output()), s) && format == old(format) && depth == old(depth)
    {
      stdout := stdout + s;
      if toError {
        columnStderr := columnStderr + |s|;
      } else {
        columnStdout := columnStdout + |s|;
      }
      hadOutput := true;
    }

    /** strchr */
    method Find(s: string, c: char) returns (i: nat)
      ensures i == IndexOf(s, c)
    {
      i := 0;
      while i < |s| && s[i] != c
        invariant i <= |s| && i + IndexOf(s[i..], c) == IndexOf(s, c)
      {
        assert s[i..][1..] == s[i + 1..];
        i := i + 1;
      }
    }

    /** print_interfaceX */
    method PrintInterfaceX(quiet: bool) returns (st: Status)
      modifies this
      ensures var r := Interpret(env, old(format), old(depth) > 0, quiet, old(Output()));
              Follows(r, st, old(depth)) && (r.Done? ==> format == r.rest)
      decreases |format|, 3
    {
      hide Interpret, Arguments, Handle, PutString, IndexOf;
      ghost var whole := Interpret(env, format, depth > 0, quiet, Output());
      var p := format;
      ghost var length := |p|;
      depth := depth + 1;
      while !(p == "" || (depth > 1 && p[0] == '}'))
        invariant depth == old(depth) + 1 && |p| <= length
        invariant whole == Interpret(env, p, depth > 1, quiet, Output())
        decreases |p|
      {
        if p[0] != '$' {
          p := EchoText(p, quiet);
          continue;
        }
        if |p| == 1 {
          Overruns(env, p, depth > 1, quiet, Output());
          if !quiet {
            Put('$');
            Put('\0');
          }
          return OutOfText;
        }
        if p[1] != '{' {
          StepEscape(env, p, depth > 1, quiet, Output());
          if !quiet {
            if p[1] != '$' && p[1] != '}' {
              Put('$');
            }
            Put(p[1]);
          }
          p := p[2..];
          continue;
        }
        var q := Find(p[2..], '}');
        if q == |p| - 2 {
          StepDump(env, p, depth > 1, quiet, Output());
          PutText(p);
          p := "";
          continue;
        }
        StepCall(env, p, depth > 1, quiet, Output(), q);
        var id := p[2..2 + q];
        ghost var limit := |p|;
        var argv;
        st, argv, p := TakeArguments(p[2 + q + 1..]);
        if st == OutOfText {
          return;
        }
        if !quiet {
          st := FormatHandler(id, argv, limit);
          if st != Running {
            return;
          }
        }
      }
      Ends(env, p, depth > 1, quiet, Output());
      format := p;
      depth := depth - 1;
      st := Running;
    }

    /** The inner loop: echo up to the end or the next dollar sign. */
    method EchoText(text: string, quiet: bool) returns (p: string)
      requires !AtEnd(text, depth > 1) && text[0] != '$'
      modifies this
      ensures |p| < |text| && depth == old(depth) && format == old(format)
      ensures Interpret(env, text, depth > 1, quiet, old(Output())) == Interpret(env, p, depth > 1, quiet, Output())
    {
      hide Interpret;
      p := text;
      while !(p == "" || p[0] == '$' || (depth > 1 && p[0] == '}'))
        invariant depth == old(depth) && format == old(format) && (p == text || |p| < |text|)
        invariant Interpret(env, text, depth > 1, quiet, old(Output())) == Interpret(env, p, depth > 1, quiet, Output())
        decreases |p|
      {
        StepPlain(env, p, depth > 1, quiet, Output());
        if !quiet {
          Put(p[0]);
        }
        p := p[1..];
      }
    }

    /** The arguments behind a call: each is skipped quietly, copied, and its brace consumed. */
    method TakeArguments(text: string) returns (st: Status, argv: seq<string>, p: string)
      requires depth > 0
      modifies this
      ensures var r := Arguments(env, text, old(Output()));
              if r.Lost? then st == OutOfText && Output() == r.out
              else st == Running && r == Args(argv, p, Output()) && depth == old(depth)
      decreases |text|, 4
    {
      hide Interpret, Arguments;
      ghost var whole := Arguments(env, text, Output());
      argv, p := [], text;
      assert Prepended([], whole) == whole;
      while p != "" && p[0] == '{'
        invariant depth == old(depth) && |p| <= |text|
        invariant whole == Prepended(argv, Arguments(env, p, Output()))
        decreases |p|
      {
        StepArgument(env, p, Output());
        format := p[1..];
        st := PrintInterfaceX(true);
        if st != Running {
          return OutOfText, argv, p;
        }
        var arg := p[1..|p| - |format|];
        p := if format != "" then format[1..] else format;
        PrependedAdds(argv, arg, Arguments(env, p, Output()));
        argv := argv + [arg];
      }
      NoMoreArguments(env, p, Output());
      st := Running;
    }

    /** select_arg */
    method Choose(argv: seq<string>, nr: nat, ghost limit: nat) returns (st: Status)
      requires depth > 0 && forall a :: a in argv ==> |a| < limit
      modifies this
      ensures Follows(SelectArg(env, argv, nr, old(Output()), limit), st, old(depth))
      decreases limit, 0
    {
      st := Running;
      if nr < |argv| {
        format := argv[nr];
        st := PrintInterfaceX(false);
      }
    }

    /** fh_rep, once the count is known */
    method RepeatArg(arg: string, count: nat) returns (st: Status)
      requires depth > 0
      modifies this
      ensures Follows(Repeat(env, arg, count, old(Output())), st, old(depth))
      decreases |arg|, 4
    {
      ghost var whole := Repeat(env, arg, count, Output());
      var n: nat := count;
      while n > 0
        invariant depth == old(depth) && n <= count
        invariant whole == Repeat(env, arg, n, Output())
      {
        format := arg;
        st := PrintInterfaceX(false);
        if st != Running {
          return;
        }
        n := n - 1;
      }
      st := Running;
    }

    /** fh_join */
    method JoinArgs(argv: seq<string>, ghost limit: nat) returns (st: Status)
      requires depth > 0 && |argv| >= 2 && forall a :: a in argv ==> |a| < limit
      modifies this
      ensures Follows(Join(env, argv, 1, old(hadOutput), old(Output()).(had := false), limit), st, old(depth))
      decreases limit, 0
    {
      var saved := hadOutput;
      hadOutput := false;
      ghost var whole := Join(env, argv, 1, saved, Output(), limit);
      var count := 1;
      while count < |argv|
        invariant depth == old(depth) && 1 <= count <= |argv|
        invariant whole == Join(env, argv, count, saved, Output(), limit)
      {
        if hadOutput {
          PutText(argv[0]);
          hadOutput := false;
          saved := true;
        }
        format := argv[count];
        st := PrintInterfaceX(false);
        if st != Running {
          return;
        }
        count := count + 1;
      }
      hadOutput := saved;
      st := Running;
    }

    /** fh_error */
    method ErrorArgs(argv: seq<string>, ghost limit: nat) returns (st: Status)
      requires depth > 0 && forall a :: a in argv ==> |a| < limit
      modifies this
      ensures Follows(Back(Each(env, argv, 0, old(Output()).(toError := true), limit), old(toError)), st, old(depth))
      decreases limit, 0
    {
      var s := toError;
      toError := true;
      ghost var whole := Each(env, argv, 0, Output(), limit);
      for i := 0 to |argv|
        invariant depth == old(depth)
        invariant whole == Each(env, argv, i, Output(), limit)
      {
        format := argv[i];
        st := PrintInterfaceX(false);
        if st != Running {
          return;
        }
      }
      toError := s;
      st := Running;
    }

    /** fh_tab */
    method TabTo(goal: nat)
      modifies this
      ensures Output() == Fill(old(Output()), goal) && format == old(format) && depth == old(depth)
    {
      while (if toError then columnStderr else columnStdout) < goal
        invariant Fill(Output(), goal) == Fill(old(Output()), goal) && format == old(format) && depth == old(depth)
        decreases goal - Column(Output())
      {
        Put(' ');
      }
    }

    /** format_handler */
    method FormatHandler(name: string, argv: seq<string>, ghost limit: nat) returns (st: Status)
      requires depth > 0 && forall a :: a in argv ==> |a| < limit
      modifies this
      ensures Follows(Handle(env, name, argv, old(Output()), limit), st, old(depth))
      decreases limit, 1
    {
      hide Lookup, SelectArg, Repeat, Join, Each, PutString, PutChar, Printf, Fill;
      st := Running;
      match Lookup(env, name)
      case Unknown =>
        PrintfText("(");
        PutText(name);
        PrintfText(" unknown)");
      case Nothing =>
      case FormatQuery =>
        if argv != [] {
          st := Choose(argv, if argv[0] in env.formats then 1 else 2, limit);
        }
      case ExistsQuery =>
        if argv != [] {
          st := Choose(argv, if argv[0] in env.handles then 1 else 2, limit);
        }
      case FirstQuery => st := Choose(argv, if env.first then 0 else 1, limit);
      case VerboseQuery => st := Choose(argv, if env.verbose then 0 else 1, limit);
      case Newline => Put('\n');
      case Tabulator => Put('\t');
      case Tab =>
        var goal := if |argv| >= 1 then env.goal(argv[0]) else 0;
        TabTo(if goal <= 0 then ((if toError then columnStderr else columnStdout) / TAB_STOP + 1) * TAB_STOP else goal);
      case Name => PutText(env.name);
      case Progname => PutText(env.progname);
      case Docstr =>
        var f := FormatNamed(env, argv);
        if f !in env.formats {
          return Exited;
        }
        PutText(env.formats[f].docstr);
      case Defn =>
        var f := FormatNamed(env, argv);
        if f !in env.formats {
          return Exited;
        }
        PutText(env.formats[f].templ);
      case Rep =>
        if |argv| >= 2 {
          if env.repeat(argv[0]).None? {
            return Exited;
          }
          st := RepeatArg(argv[1], env.repeat(argv[0]).value);
        }
      case JoinAll =>
        if |argv| >= 2 {
          st := JoinArgs(argv, limit);
        }
      case Error => st := ErrorArgs(argv, limit);
      case ExitNow => st := Exited;
      case System =>
        match env.system(name, argv)
        case Select(nr) => st := Choose(argv, nr, limit);
        case Print(text) => PutText(text);
        case Fail => st := Exited;
    }

    /** print_interface: a template that is the text of a tree prints the meaning of the tree.  Any
        text at all is left behind its end only if the scan of it runs off, and then always, unless
        a handler ends the process. */
    method PrintInterface(text: string) returns (st: Status)
      modifies this
      ensures Follows(Interpret(env, text, false, false, old(Output())), st, 0)
      ensures forall t :: WellFormed(t) && Render(t) == text ==>
                (match Eval(env, t, old(Output()))
                 case Ok(p) => st == Running && Output() == p && depth == 0 && format == ""
                 case Exit(p) => st == Exited && Output() == p)
      ensures st == Exited || (st == OutOfText <==> RunsOff(text))
    {
      format := text;
      depth := 0;
      st := PrintInterfaceX(false);
      OverrunsIff(env, text, old(Output()));
      forall t | WellFormed(t) && Render(t) == text
        ensures Interpret(env, text, false, false, old(Output())) == Expected(Eval(env, t, old(Output())), "")
      {
        assert Render(t) + "" == text;
        PrintsMeaning(env, t, "", false, old(Output()));
      }
    }
  }
}
