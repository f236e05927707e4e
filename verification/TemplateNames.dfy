/** What the names of the template language stand for: for each of them, what the interpreter does with a
    call of that name, written out. */
module TemplateNames {
  import opened Basics
  import opened TemplateOutput
  import opened TemplateInterpreter
  import opened TemplateTrees

  /** Wherever it stands, the call of this name with these arguments does what e says. */
  ghost predicate Does(env: Env, name: string, args: ArgList, o: Out, e: Result) {
    forall tail, nested :: Closed(tail, nested) ==>
      Interpret(env, "${" + name + "}" + (RenderArgs(args) + tail), nested, false, o) == Expected(e, tail)
  }

  function One(a: Template): ArgList { Arg(a, NoArgs) }

  function Two(a: Template, b: Template): ArgList { Arg(a, One(b)) }

  function Three(a: Template, b: Template, c: Template): ArgList { Arg(a, Two(b, c)) }

  /** The names of one length differ in their first or second letters. */
  lemma NamesDiffer()
    ensures "format?" != "newline" && "exists?" != "newline" && "format?" != "exists?"
    ensures "verbose?" != "progname" && "docstr" != "first?" && "tab" != "rep" && "\\n" != "\\t"
    ensures "name" != "defn" && "name" != "join" && "name" != "exit"
    ensures "defn" != "join" && "defn" != "exit" && "join" != "exit"
  {
    assert "format?"[0] == 'f' && "newline"[0] == 'n' && "exists?"[0] == 'e';
    assert "verbose?"[0] == 'v' && "progname"[0] == 'p' && "first?"[0] == 'f' && "docstr"[0] == 'd';
    assert "tab"[0] == 't' && "rep"[0] == 'r' && "\\t"[1] == 't' && "\\n"[1] == 'n';
    assert "name"[0] == 'n' && "defn"[0] == 'd' && "join"[0] == 'j' && "exit"[0] == 'e';
  }

  lemma WellOne(a: Template)
    requires WellFormed(a)
    ensures WellFormedArgs(One(a))
  {
    assert WellFormedArgs(NoArgs);
  }

  lemma TakeTwo(a: Template, b: Template)
    ensures Count(Two(a, b)) == 2 && Nth(Two(a, b), 0) == a && Nth(Two(a, b), 1) == b
  {
    assert Count(NoArgs) == 0 && Count(One(b)) == 1 && Nth(One(b), 0) == b;
  }

  lemma TakeThree(a: Template, b: Template, c: Template)
    ensures Count(Three(a, b, c)) == 3 && Nth(Three(a, b, c), 1) == b && Nth(Three(a, b, c), 2) == c
  {
    TakeTwo(b, c);
  }

  lemma WellTwo(a: Template, b: Template)
    requires WellFormed(a) && WellFormed(b)
    ensures WellFormedArgs(Two(a, b))
  {
    WellOne(b);
  }

  lemma WellThree(a: Template, b: Template, c: Template)
    requires WellFormed(a) && WellFormed(b) && WellFormed(c)
    ensures WellFormedArgs(Three(a, b, c))
  {
    WellTwo(b, c);
  }

  lemma CallDoes(env: Env, name: string, args: ArgList, o: Out)
    requires '}' !in name && WellFormedArgs(args)
    ensures Does(env, name, args, o, EvalCall(env, name, args, o))
  {
    hide Interpret, EvalCall, RenderArgs;
    forall tail, nested | Closed(tail, nested)
      ensures Interpret(env, "${" + name + "}" + (RenderArgs(args) + tail), nested, false, o)
           == Expected(EvalCall(env, name, args, o), tail)
    {
      CallMeans(env, name, args, tail, nested, o);
      var e := EvalCall(env, name, args, o);
      if e.Ok? {
        EndUnfolds(env, tail, nested, false, e.out);
      }
    }
  }

  // ----- choosing -----

  /** first? : the first argument for the first interface, the second for all others. */
  lemma FirstQueryName(env: Env, a: Template, b: Template, o: Out)
    requires "first?" in env.handles && WellFormed(a) && WellFormed(b)
    ensures Does(env, "first?", Two(a, b), o, Eval(env, if env.first then a else b, o))
  {
    hide Does, Eval;
    NamesDiffer();
    TakeTwo(a, b);
    WellTwo(a, b);
    CallDoes(env, "first?", Two(a, b), o);
  }

  /** verbose? : the first argument when -v was given. */
  lemma VerboseQueryName(env: Env, a: Template, b: Template, o: Out)
    requires "verbose?" in env.handles && WellFormed(a) && WellFormed(b)
    ensures Does(env, "verbose?", Two(a, b), o, Eval(env, if env.verbose then a else b, o))
  {
    hide Does, Eval;
    NamesDiffer();
    TakeTwo(a, b);
    WellTwo(a, b);
    CallDoes(env, "verbose?", Two(a, b), o);
  }

  /** format? : the second argument when the text of the first is the name of a format. */
  lemma FormatQueryName(env: Env, f: Template, a: Template, b: Template, o: Out)
    requires "format?" in env.handles && WellFormed(f) && WellFormed(a) && WellFormed(b)
    ensures Does(env, "format?", Three(f, a, b), o, Eval(env, if Render(f) in env.formats then a else b, o))
  {
    hide Does, Eval, Render;
    NamesDiffer();
    TakeThree(f, a, b);
    WellThree(f, a, b);
    CallDoes(env, "format?", Three(f, a, b), o);
  }

  /** exists? : the second argument when the text of the first is a name of the language. */
  lemma ExistsQueryName(env: Env, f: Template, a: Template, b: Template, o: Out)
    requires "exists?" in env.handles && WellFormed(f) && WellFormed(a) && WellFormed(b)
    ensures Does(env, "exists?", Three(f, a, b), o, Eval(env, if Render(f) in env.handles then a else b, o))
  {
    hide Does, Eval, Render;
    NamesDiffer();
    TakeThree(f, a, b);
    WellThree(f, a, b);
    CallDoes(env, "exists?", Three(f, a, b), o);
  }

  // ----- printing -----

  /** newline and \n */
  lemma NewlineName(env: Env, args: ArgList, o: Out)
    requires WellFormedArgs(args)
    ensures "newline" in env.handles ==> Does(env, "newline", args, o, Ok(PutChar(o, '\n')))
    ensures "\\n" in env.handles ==> Does(env, "\\n", args, o, Ok(PutChar(o, '\n')))
  {
    hide Does, Lookup;
    NewlineIsFound(env);
    CallDoes(env, "newline", args, o);
    CallDoes(env, "\\n", args, o);
  }

  lemma NewlineIsFound(env: Env)
    ensures "newline" in env.handles ==> Lookup(env, "newline") == Newline
    ensures "\\n" in env.handles ==> Lookup(env, "\\n") == Newline
    ensures '}' !in "newline" && '}' !in "\\n"
  {
    NamesDiffer();
  }

  /** \t */
  lemma TabulatorName(env: Env, args: ArgList, o: Out)
    requires "\\t" in env.handles && WellFormedArgs(args)
    ensures Does(env, "\\t", args, o, Ok(PutChar(o, '\t')))
  {
    hide Does;
    NamesDiffer();
    CallDoes(env, "\\t", args, o);
  }

  /** The empty name */
  lemma NothingName(env: Env, args: ArgList, o: Out)
    requires "" in env.handles && WellFormedArgs(args)
    ensures Does(env, "", args, o, Ok(o))
  {
    hide Does;
    NamesDiffer();
    CallDoes(env, "", args, o);
  }

  /** name, the interface */
  lemma NameName(env: Env, args: ArgList, o: Out)
    requires "name" in env.handles && WellFormedArgs(args)
    ensures Does(env, "name", args, o, Ok(PutString(o, env.name)))
  {
    hide Does;
    NamesDiffer();
    CallDoes(env, "name", args, o);
  }

  /** progname, the program */
  lemma PrognameName(env: Env, args: ArgList, o: Out)
    requires "progname" in env.handles && WellFormedArgs(args)
    ensures Does(env, "progname", args, o, Ok(PutString(o, env.progname)))
  {
    hide Does, Lookup;
    PrognameIsFound(env);
    CallDoes(env, "progname", args, o);
  }

  lemma PrognameIsFound(env: Env)
    requires "progname" in env.handles
    ensures Lookup(env, "progname") == Progname && '}' !in "progname"
  {
    NamesDiffer();
  }

  /** docstr: the description of the format that the argument, or else the interface, has the name of. */
  lemma DocstrName(env: Env, f: Template, o: Out)
    requires "docstr" in env.handles && WellFormed(f)
    ensures Does(env, "docstr", One(f), o,
                 if Render(f) in env.formats then Ok(PutString(o, env.formats[Render(f)].docstr)) else Exit(o))
    ensures Does(env, "docstr", NoArgs, o,
                 if env.name in env.formats then Ok(PutString(o, env.formats[env.name].docstr)) else Exit(o))
  {
    hide Does, Render;
    NamesDiffer();
    WellOne(f);
    CallDoes(env, "docstr", One(f), o);
    CallDoes(env, "docstr", NoArgs, o);
  }

  /** defn: its text. */
  lemma DefnName(env: Env, f: Template, o: Out)
    requires "defn" in env.handles && WellFormed(f)
    ensures Does(env, "defn", One(f), o,
                 if Render(f) in env.formats then Ok(PutString(o, env.formats[Render(f)].templ)) else Exit(o))
    ensures Does(env, "defn", NoArgs, o,
                 if env.name in env.formats then Ok(PutString(o, env.formats[env.name].templ)) else Exit(o))
  {
    hide Does, Render;
    NamesDiffer();
    WellOne(f);
    CallDoes(env, "defn", One(f), o);
    CallDoes(env, "defn", NoArgs, o);
  }

  /** tab: blanks up to the column asked for, or else to the next tab stop. */
  lemma TabName(env: Env, g: Template, o: Out)
    requires "tab" in env.handles && WellFormed(g)
    ensures var goal := env.goal(Render(g));
            Does(env, "tab", One(g), o, Ok(Fill(o, if goal > 0 then goal else (Column(o) / 8 + 1) * 8)))
    ensures Does(env, "tab", NoArgs, o, Ok(Fill(o, (Column(o) / 8 + 1) * 8)))
  {
    hide Does, Render, Fill;
    NamesDiffer();
    WellOne(g);
    CallDoes(env, "tab", One(g), o);
    CallDoes(env, "tab", NoArgs, o);
  }

  // ----- several arguments -----

  /** One template behind another. */
  function Append(t: Template, u: Template): Template {
    match t
    case Nil => u
    case Chr(c, rest) => Chr(c, Append(rest, u))
    case Raw(c, rest) => Raw(c, Append(rest, u))
    case Call(name, args, rest) => Call(name, args, Append(rest, u))
  }

  function Times(t: Template, n: nat): Template { if n == 0 then Nil else Append(t, Times(t, n - 1)) }

  /** What a template does behind another, unless the process has ended. */
  function Then(env: Env, e: Result, u: Template): Result { if e.Ok? then Eval(env, u, e.out) else e }

  lemma {:induction false} AppendEvaluates(env: Env, t: Template, u: Template, o: Out)
    ensures Eval(env, Append(t, u), o) == Then(env, Eval(env, t, o), u)
    decreases t
  {
    hide EvalCall;
    match t
    case Nil =>
    case Chr(c, rest) => AppendEvaluates(env, rest, u, PutChar(o, c));
    case Raw(c, rest) => AppendEvaluates(env, rest, u, PutChar(PutChar(o, '$'), c));
    case Call(name, args, rest) =>
      var e := EvalCall(env, name, args, o);
      if e.Ok? {
        AppendEvaluates(env, rest, u, e.out);
      }
  }

  lemma {:induction false} RepeatEvaluates(env: Env, t: Template, n: nat, o: Out)
    ensures EvalRepeat(env, t, n, o) == Eval(env, Times(t, n), o)
    decreases n
  {
    hide Eval;
    if n == 0 {
      NilEvaluates(env, o);
    } else {
      AppendEvaluates(env, t, Times(t, n - 1), o);
      var e := Eval(env, t, o);
      if e.Ok? {
        RepeatEvaluates(env, t, n - 1, e.out);
      }
    }
  }

  lemma NilEvaluates(env: Env, o: Out)
    ensures Eval(env, Nil, o) == Ok(o)
  {
  }

  /** rep: the second argument as often as the first says. */
  lemma RepName(env: Env, n: Template, a: Template, o: Out)
    requires "rep" in env.handles && WellFormed(n) && WellFormed(a)
    ensures var count := env.repeat(Render(n));
            Does(env, "rep", Two(n, a), o, if count.None? then Exit(o) else Eval(env, Times(a, count.value), o))
  {
    hide Does, Render, Eval, Times, EvalRepeat;
    NamesDiffer();
    WellTwo(n, a);
    CallDoes(env, "rep", Two(n, a), o);
    if env.repeat(Render(n)).Some? {
      RepeatEvaluates(env, a, env.repeat(Render(n)).value, o);
    }
  }

  /** error: all arguments, on standard error. */
  lemma ErrorName(env: Env, a: Template, b: Template, o: Out)
    requires "error" in env.handles && WellFormed(a) && WellFormed(b)
    ensures var e := Eval(env, Append(a, b), o.(toError := true));
            Does(env, "error", Two(a, b), o, if e.Ok? then Ok(e.out.(toError := o.toError)) else e)
  {
    hide Does, Eval, Append;
    NamesDiffer();
    WellTwo(a, b);
    CallDoes(env, "error", Two(a, b), o);
    AppendEvaluates(env, a, b, o.(toError := true));
    EachOfTwo(env, a, b, o.(toError := true));
  }

  lemma EachOfTwo(env: Env, a: Template, b: Template, o: Out)
    ensures EvalEach(env, Two(a, b), o) == Then(env, Eval(env, a, o), b)
  {
    hide Eval;
    var e := Eval(env, a, o);
    if e.Ok? {
      var f := Eval(env, b, e.out);
      if f.Ok? {
        assert EvalEach(env, NoArgs, f.out) == Ok(f.out);
      }
    }
  }

  /** The two arguments of a join, with the text of the delimiter between them if the first one printed
      something; whether there was output before is restored, or set when the delimiter was printed. */
  function Joined(env: Env, d: string, a: Template, b: Template, o: Out): Result {
    var e := Eval(env, a, o.(had := false));
    if e.Exit? then e
    else
      var p := e.out;
      var f := Eval(env, b, if p.had then PutString(p, d).(had := false) else p);
      if f.Exit? then f else Ok(f.out.(had := o.had || p.had))
  }

  /** join */
  lemma JoinName(env: Env, d: Template, a: Template, b: Template, o: Out)
    requires "join" in env.handles && WellFormed(d) && WellFormed(a) && WellFormed(b)
    ensures Does(env, "join", Three(d, a, b), o, Joined(env, Render(d), a, b, o))
  {
    hide Does, Eval, Render;
    NamesDiffer();
    WellThree(d, a, b);
    CallDoes(env, "join", Three(d, a, b), o);
    JoinOfTwo(env, Render(d), a, b, o.had, o.(had := false));
  }

  lemma JoinOfTwo(env: Env, d: string, a: Template, b: Template, saved: bool, o: Out)
    requires !o.had
    ensures EvalJoin(env, d, Two(a, b), saved, o) == Joined(env, d, a, b, o.(had := saved))
  {
    hide Eval;
    assert o.(had := saved).(had := false) == o;
    var e := Eval(env, a, o);
    if e.Ok? {
      var f := Eval(env, b, if e.out.had then PutString(e.out, d).(had := false) else e.out);
      if f.Ok? {
        EndOfJoin(env, d, saved || e.out.had, f.out);
      }
    }
  }

  lemma EndOfJoin(env: Env, d: string, saved: bool, o: Out)
    ensures EvalJoin(env, d, NoArgs, saved, o) == Ok(o.(had := saved))
  {
  }

  // ----- ending, and names that mean nothing -----

  lemma ExitName(env: Env, args: ArgList, o: Out)
    requires "exit" in env.handles && WellFormedArgs(args)
    ensures Does(env, "exit", args, o, Exit(o))
  {
    hide Does;
    NamesDiffer();
    CallDoes(env, "exit", args, o);
  }

  /** A name that is not in the table is printed between parentheses, as unknown. */
  lemma UnknownName(env: Env, name: string, args: ArgList, o: Out)
    requires name !in env.handles && '}' !in name && WellFormedArgs(args)
    ensures Does(env, name, args, o, Ok(Printf(PutString(Printf(o, "("), name), " unknown)")))
  {
    hide Does;
    NamesDiffer();
    CallDoes(env, name, args, o);
  }

  /** What is printed then: `printf` goes to standard output even where the name itself goes to standard
      error, and either way the column counts all of it. */
  lemma UnknownPrints(o: Out, name: string)
    ensures var p := Printf(PutString(Printf(o, "("), name), " unknown)");
            && p.stdout == o.stdout + "(" + (if o.toError then "" else name) + " unknown)"
            && p.stderr == o.stderr + (if o.toError then name else "")
            && Column(p) == Column(PutString(Printf(o, "("), name)) + 9 && Column(Printf(o, "(")) == Column(o) + 1
            && p.toError == o.toError && p.had
  {
    PutStringAppends(Printf(o, "("), name);
  }

  const NAMES: set<string> := {
    "", "format?", "exists?", "first?", "verbose?", "newline", "\\n", "\\t", "tab", "name", "progname",
    "docstr", "defn", "rep", "join", "error", "exit"
  }

  /** Every other name in the table does what the system answers: print, choose an argument, or fail. */
  lemma OtherName(env: Env, name: string, args: ArgList, o: Out)
    requires name in env.handles && name !in NAMES && '}' !in name && WellFormedArgs(args)
    ensures var answer := env.system(name, Texts(args));
            Does(env, name, args, o,
                 if answer.Print? then Ok(PutString(o, answer.text))
                 else if answer.Select? then EvalNth(env, args, answer.nr, o)
                 else Exit(o))
  {
    hide Does, EvalNth;
    CallDoes(env, name, args, o);
  }

  // ----- text -----

  /** Text without dollar signs prints itself. */
  lemma {:induction false} PlainTextPrints(env: Env, s: string, o: Out)
    requires '$' !in s
    ensures Interpret(env, s, false, false, o) == Done("", PutString(o, s))
    decreases |s|
  {
    if s != "" {
      PlainTextPrints(env, s[1..], PutChar(o, s[0]));
    }
  }

  /** Two dollar signs print one, a dollar sign before a closing brace prints the brace, and one before
      anything else prints both characters; a name that is not closed is printed with all before it. */
  lemma EscapesPrint(env: Env, c: char, s: string, o: Out)
    requires '$' !in s && '}' !in s
    ensures Interpret(env, "$$" + s, false, false, o) == Done("", PutString(o, "$" + s))
    ensures Interpret(env, "$}" + s, false, false, o) == Done("", PutString(o, "}" + s))
    ensures c != '$' && c != '}' && c != '{' ==>
              Interpret(env, ['$', c] + s, false, false, o) == Done("", PutString(o, ['$', c] + s))
    ensures Interpret(env, "${" + s, false, false, o) == Done("", PutString(o, "${" + s))
  {
    hide Interpret;
    EscapeUnfolds(env, '$', s, false, false, o);
    EscapeUnfolds(env, '}', s, false, false, o);
    PlainTextPrints(env, s, PutChar(o, '$'));
    PlainTextPrints(env, s, PutChar(o, '}'));
    assert ("$" + s)[1..] == s && ("}" + s)[1..] == s;
    if c != '$' && c != '}' && c != '{' {
      EscapeUnfolds(env, c, s, false, false, o);
      PlainTextPrints(env, s, PutChar(PutChar(o, '$'), c));
      assert (['$', c] + s)[1..] == [c] + s && ([c] + s)[1..] == s;
    }
    UnclosedPrints(env, s, o);
  }

  lemma UnclosedPrints(env: Env, s: string, o: Out)
    requires '}' !in s
    ensures Interpret(env, "${" + s, false, false, o) == Done("", PutString(o, "${" + s))
  {
    var t := "${" + s;
    assert t[0] == '$' && t[1] == '{' && t[2..] == s;
    assert IndexOf(s, '}') == |s|;
  }
}
