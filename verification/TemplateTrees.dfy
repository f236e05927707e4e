/** Templates as trees, their rendering as text, and what they mean.  The main result is that the
    text interpreter computes the meaning of the tree, whatever the nesting. */
module TemplateTrees {
  import opened Basics
  import opened TemplateOutput
  import opened TemplateInterpreter

  /** `Raw(c)` is a dollar sign before an ordinary character, which stands for both. */
  datatype Template =
    | Nil
    | Chr(c: char, rest: Template)
    | Raw(c: char, rest: Template)
    | Call(name: string, args: ArgList, rest: Template)

  datatype ArgList = NoArgs | Arg(t: Template, more: ArgList)

  // ----- rendering -----

  function Render(t: Template): string {
    match t
    case Nil => ""
    case Chr(c, rest) => (if c == '$' || c == '}' then ['$', c] else [c]) + Render(rest)
    case Raw(c, rest) => ['$', c] + Render(rest)
    case Call(name, args, rest) => "${" + name + "}" + RenderArgs(args) + Render(rest)
  }

  function RenderArgs(args: ArgList): string {
    match args
    case NoArgs => ""
    case Arg(t, more) => "{" + Render(t) + "}" + RenderArgs(more)
  }

  predicate WellFormed(t: Template) {
    match t
    case Nil => true
    case Chr(_, rest) => WellFormed(rest)
    case Raw(c, rest) => c != '$' && c != '}' && c != '{' && WellFormed(rest)
    case Call(name, args, rest) =>
      '}' !in name && WellFormedArgs(args) && WellFormed(rest) && !(rest.Chr? && rest.c == '{')
  }

  predicate WellFormedArgs(args: ArgList) {
    args.Arg? ==> WellFormed(args.t) && WellFormedArgs(args.more)
  }

  // ----- meaning -----

  datatype Result = Ok(out: Out) | Exit(out: Out)

  function Count(args: ArgList): nat {
    match args case NoArgs => 0 case Arg(_, more) => 1 + Count(more)
  }

  function Nth(args: ArgList, i: nat): (t: Template)
    requires i < Count(args)
    ensures t < args
  {
    if i == 0 then args.t else Nth(args.more, i - 1)
  }

  function Texts(args: ArgList): (s: seq<string>)
    ensures |s| == Count(args)
  {
    match args case NoArgs => [] case Arg(t, more) => [Render(t)] + Texts(more)
  }

  function Eval(env: Env, t: Template, o: Out): Result
    decreases t, 1
  {
    match t
    case Nil => Ok(o)
    case Chr(c, rest) => Eval(env, rest, PutChar(o, c))
    case Raw(c, rest) => Eval(env, rest, PutChar(PutChar(o, '$'), c))
    case Call(name, args, rest) =>
      match EvalCall(env, name, args, o)
      case Ok(p) => Eval(env, rest, p)
      case Exit(p) => Exit(p)
  }

  function EvalNth(env: Env, args: ArgList, i: nat, o: Out): Result
    decreases args, 1
  {
    if i < Count(args) then Eval(env, Nth(args, i), o) else Ok(o)
  }

  function EvalRepeat(env: Env, t: Template, count: nat, o: Out): Result
    decreases t, 2, count
  {
    if count == 0 then Ok(o)
    else
      match Eval(env, t, o)
      case Ok(p) => EvalRepeat(env, t, count - 1, p)
      case Exit(p) => Exit(p)
  }

  /** The arguments after the first, with the first between those that print something. */
  function EvalJoin(env: Env, delimiter: string, args: ArgList, saved: bool, o: Out): Result
    decreases args, 1
  {
    match args
    case NoArgs => Ok(o.(had := saved))
    case Arg(t, more) =>
      match Eval(env, t, if o.had then PutString(o, delimiter).(had := false) else o)
      case Ok(p) => EvalJoin(env, delimiter, more, saved || o.had, p)
      case Exit(p) => Exit(p)
  }

  function EvalEach(env: Env, args: ArgList, o: Out): Result
    decreases args, 1
  {
    match args
    case NoArgs => Ok(o)
    case Arg(t, more) =>
      match Eval(env, t, o)
      case Ok(p) => EvalEach(env, more, p)
      case Exit(p) => Exit(p)
  }

  /** What a call means: the selecting handlers interpret only the branch they select. */
  function EvalCall(env: Env, name: string, args: ArgList, o: Out): Result
    decreases args, 2
  {
    match Lookup(env, name)
    case Unknown => Ok(Printf(PutString(Printf(o, "("), name), " unknown)"))
    case Nothing => Ok(o)
    case FormatQuery =>
      if args.NoArgs? then Ok(o) else EvalNth(env, args, if Render(args.t) in env.formats then 1 else 2, o)
    case ExistsQuery =>
      if args.NoArgs? then Ok(o) else EvalNth(env, args, if Render(args.t) in env.handles then 1 else 2, o)
    case FirstQuery => EvalNth(env, args, if env.first then 0 else 1, o)
    case VerboseQuery => EvalNth(env, args, if env.verbose then 0 else 1, o)
    case Newline => Ok(PutChar(o, '\n'))
    case Tabulator => Ok(PutChar(o, '\t'))
    case Tab => Ok(Fill(o, TabGoal(env, Texts(args), o)))
    case Name => Ok(PutString(o, env.name))
    case Progname => Ok(PutString(o, env.progname))
    case Docstr =>
      var f := FormatNamed(env, Texts(args));
      if f in env.formats then Ok(PutString(o, env.formats[f].docstr)) else Exit(o)
    case Defn =>
      var f := FormatNamed(env, Texts(args));
      if f in env.formats then Ok(PutString(o, env.formats[f].templ)) else Exit(o)
    case Rep =>
      if args.NoArgs? || args.more.NoArgs? then Ok(o)
      else if env.repeat(Render(args.t)).None? then Exit(o)
      else EvalRepeat(env, args.more.t, env.repeat(Render(args.t)).value, o)
    case JoinAll =>
      if args.NoArgs? || args.more.NoArgs? then Ok(o)
      else EvalJoin(env, Render(args.t), args.more, o.had, o.(had := false))
    case Error =>
      var e := EvalEach(env, args, o.(toError := true));
      if e.Ok? then Ok(e.out.(toError := o.toError)) else e
    case ExitNow => Exit(o)
    case System =>
      match env.system(name, Texts(args))
      case Select(nr) => EvalNth(env, args, nr, o)
      case Print(text) => Ok(PutString(o, text))
      case Fail => Exit(o)
  }

  // ----- the interpreter on a rendered tree -----

  /** What may follow a rendered template: nothing, or the brace that closes an argument. */
  predicate Closed(tail: string, nested: bool) {
    tail == "" || (nested && tail[0] == '}')
  }

  function Expected(r: Result, tail: string): Outcome {
    match r case Ok(p) => Done(tail, p) case Exit(p) => Halt(p)
  }

  lemma FindsBrace(name: string, after: string)
    requires '}' !in name
    ensures IndexOf(name + "}" + after, '}') == |name|
  {
    var s := name + "}" + after;
    assert s[|name|] == '}';
    assert forall j :: 0 <= j < |name| ==> s[j] == name[j];
  }

  /** One call, once its name is known and `after` follows the brace behind it. */
  function CallOutcome(env: Env, name: string, after: string, nested: bool, quiet: bool, o: Out): Outcome {
    match Arguments(env, after, o)
    case Lost(p) => Overrun(p)
    case Args(args, rest, p) =>
      if quiet then Interpret(env, rest, nested, quiet, p)
      else
        match Handle(env, name, args, p, |after| + |name| + 3)
        case Done(_, p') => Interpret(env, rest, nested, quiet, p')
        case bad => bad
  }

  lemma CallUnfolds(env: Env, name: string, after: string, nested: bool, quiet: bool, o: Out)
    requires '}' !in name
    ensures Interpret(env, "${" + name + "}" + after, nested, quiet, o)
        == CallOutcome(env, name, after, nested, quiet, o)
  {
    hide Handle;
    var s := "${" + name + "}" + after;
    assert s[2..] == name + "}" + after;
    FindsBrace(name, after);
    assert s[2..2 + |name|] == name && s[2 + |name| + 1..] == after;
  }

  lemma EndUnfolds(env: Env, s: string, nested: bool, quiet: bool, o: Out)
    requires Closed(s, nested)
    ensures Interpret(env, s, nested, quiet, o) == Done(s, o)
  {
  }

  lemma CharUnfolds(env: Env, c: char, after: string, nested: bool, quiet: bool, o: Out)
    requires c != '$' && c != '}'
    ensures Interpret(env, [c] + after, nested, quiet, o) == Interpret(env, after, nested, quiet, Echo(quiet, o, c))
  {
    assert ([c] + after)[1..] == after;
  }

  lemma EscapeUnfolds(env: Env, c: char, after: string, nested: bool, quiet: bool, o: Out)
    requires c != '{'
    ensures Interpret(env, ['$', c] + after, nested, quiet, o) ==
            var p := if c == '$' || c == '}' then o else Echo(quiet, o, '$');
            Interpret(env, after, nested, quiet, Echo(quiet, p, c))
  {
    assert (['$', c] + after)[2..] == after;
  }

  lemma ArgumentUnfolds(env: Env, arg: string, after: string, o: Out)
    requires Interpret(env, arg + "}" + after, true, true, o) == Done("}" + after, o)
    ensures Arguments(env, "{" + arg + "}" + after, o) ==
              (match Arguments(env, after, o)
               case Lost(p) => Lost(p)
               case Args(args, rest, p) => Args([arg] + args, rest, p))
  {
    hide Interpret;
    var s := "{" + arg + "}" + after;
    assert s[1..] == arg + "}" + after;
    assert s[1..|s| - |"}" + after|] == arg;
    assert ("}" + after)[1..] == after;
  }

  lemma RenderStart(t: Template)
    requires WellFormed(t) && !(t.Chr? && t.c == '{')
    ensures Render(t) == "" || Render(t)[0] != '{'
  {
  }

  /** In quiet mode a rendered template is skipped exactly to its end, and nothing is printed. */
  lemma {:induction false} SkipsTemplate(env: Env, t: Template, tail: string, nested: bool, o: Out)
    requires WellFormed(t) && (tail == "" || tail[0] != '{')
    ensures Interpret(env, Render(t) + tail, nested, true, o) == Interpret(env, tail, nested, true, o)
    decreases t, 0
  {
    hide Interpret, Arguments;
    var s := Render(t) + tail;
    match t
    case Nil =>
      assert s == tail;
    case Chr(c, rest) =>
      SkipsTemplate(env, rest, tail, nested, o);
      if c == '$' || c == '}' {
        EscapeUnfolds(env, c, Render(rest) + tail, nested, true, o);
        assert s == ['$', c] + (Render(rest) + tail);
      } else {
        CharUnfolds(env, c, Render(rest) + tail, nested, true, o);
        assert s == [c] + (Render(rest) + tail);
      }
    case Raw(c, rest) =>
      SkipsTemplate(env, rest, tail, nested, o);
      EscapeUnfolds(env, c, Render(rest) + tail, nested, true, o);
      assert s == ['$', c] + (Render(rest) + tail);
    case Call(name, args, rest) =>
      var after := Render(rest) + tail;
      assert s == "${" + name + "}" + (RenderArgs(args) + after);
      CallUnfolds(env, name, RenderArgs(args) + after, nested, true, o);
      RenderStart(rest);
      SkipsArguments(env, args, after, o);
      SkipsTemplate(env, rest, tail, nested, o);
  }

  /** The arguments found are the rendered arguments: each quiet pass stops at its closing brace. */
  lemma {:induction false} SkipsArguments(env: Env, args: ArgList, after: string, o: Out)
    requires WellFormedArgs(args) && (after == "" || after[0] != '{')
    ensures Arguments(env, RenderArgs(args) + after, o) == Args(Texts(args), after, o)
    decreases args, 1
  {
    hide Interpret;
    match args
    case NoArgs =>
      assert RenderArgs(args) + after == after;
    case Arg(t, more) =>
      var rest := RenderArgs(more) + after;
      SkipsTemplate(env, t, "}" + rest, true, o);
      EndUnfolds(env, "}" + rest, true, true, o);
      assert Render(t) + ("}" + rest) == Render(t) + "}" + rest;
      ArgumentUnfolds(env, Render(t), rest, o);
      assert RenderArgs(args) + after == "{" + Render(t) + "}" + rest;
      SkipsArguments(env, more, after, o);
  }

  /** The interpreter and the meaning end in the same way with the same output. */
  predicate Agree(r: Outcome, e: Result) {
    match e
    case Ok(p) => r.Done? && r.out == p
    case Exit(p) => r == Halt(p)
  }

  lemma {:induction false} NthText(args: ArgList, i: nat)
    requires i < Count(args)
    ensures Texts(args)[i] == Render(Nth(args, i)) && (WellFormedArgs(args) ==> WellFormed(Nth(args, i)))
  {
    if i > 0 {
      NthText(args.more, i - 1);
    }
  }

  lemma SelectMeans(env: Env, args: ArgList, nr: nat, o: Out, limit: nat)
    requires WellFormedArgs(args) && forall a :: a in Texts(args) ==> |a| < limit
    ensures Agree(SelectArg(env, Texts(args), nr, o, limit), EvalNth(env, args, nr, o))
    decreases args, 1
  {
    hide Interpret, Eval;
    if nr < Count(args) {
      NthText(args, nr);
      PrintsMeaning(env, Nth(args, nr), "", true, o);
      assert Render(Nth(args, nr)) + "" == Render(Nth(args, nr));
    }
  }

  lemma {:induction false} RepeatMeans(env: Env, t: Template, count: nat, o: Out)
    requires WellFormed(t)
    ensures Agree(Repeat(env, Render(t), count, o), EvalRepeat(env, t, count, o))
    decreases t, 4, count
  {
    hide Interpret, Eval;
    if count > 0 {
      PrintsMeaning(env, t, "", true, o);
      assert Render(t) + "" == Render(t);
      if Eval(env, t, o).Ok? {
        RepeatMeans(env, t, count - 1, Eval(env, t, o).out);
      }
    }
  }

  lemma {:induction false} JoinMeans(env: Env, pre: seq<string>, args: ArgList, saved: bool, o: Out, limit: nat)
    requires WellFormedArgs(args) && |pre| > 0 && forall a :: a in pre + Texts(args) ==> |a| < limit
    ensures Agree(Join(env, pre + Texts(args), |pre|, saved, o, limit), EvalJoin(env, pre[0], args, saved, o))
    decreases args, 1
  {
    hide Interpret, Eval;
    if args.Arg? {
      var p := if o.had then PutString(o, pre[0]).(had := false) else o;
      PrintsMeaning(env, args.t, "", true, p);
      assert Render(args.t) + "" == Render(args.t) && (pre + Texts(args))[|pre|] == Render(args.t);
      assert pre + Texts(args) == (pre + [Render(args.t)]) + Texts(args.more);
      if Eval(env, args.t, p).Ok? {
        JoinMeans(env, pre + [Render(args.t)], args.more, saved || o.had, Eval(env, args.t, p).out, limit);
      }
    }
  }

  lemma {:induction false} EachMeans(env: Env, pre: seq<string>, args: ArgList, o: Out, limit: nat)
    requires WellFormedArgs(args) && forall a :: a in pre + Texts(args) ==> |a| < limit
    ensures Agree(Each(env, pre + Texts(args), |pre|, o, limit), EvalEach(env, args, o))
    decreases args, 1
  {
    hide Interpret, Eval;
    if args.Arg? {
      PrintsMeaning(env, args.t, "", true, o);
      assert Render(args.t) + "" == Render(args.t) && (pre + Texts(args))[|pre|] == Render(args.t);
      assert pre + Texts(args) == (pre + [Render(args.t)]) + Texts(args.more);
      if Eval(env, args.t, o).Ok? {
        EachMeans(env, pre + [Render(args.t)], args.more, Eval(env, args.t, o).out, limit);
      }
    }
  }

  lemma HandleMeans(env: Env, name: string, args: ArgList, o: Out, limit: nat)
    requires WellFormedArgs(args) && forall a :: a in Texts(args) ==> |a| < limit
    ensures Agree(Handle(env, name, Texts(args), o, limit), EvalCall(env, name, args, o))
    decreases args, 2
  {
    hide Lookup, SelectArg, EvalNth, Repeat, EvalRepeat, Join, EvalJoin, Each, EvalEach, PutString, PutChar, Printf,
        Fill, TabGoal;
    match Lookup(env, name)
    case FormatQuery =>
      if args.Arg? {
        assert Texts(args)[0] == Render(args.t);
        SelectMeans(env, args, if Render(args.t) in env.formats then 1 else 2, o, limit);
      }
    case ExistsQuery =>
      if args.Arg? {
        assert Texts(args)[0] == Render(args.t);
        SelectMeans(env, args, if Render(args.t) in env.handles then 1 else 2, o, limit);
      }
    case FirstQuery => SelectMeans(env, args, if env.first then 0 else 1, o, limit);
    case VerboseQuery => SelectMeans(env, args, if env.verbose then 0 else 1, o, limit);
    case Rep => RepMeans(env, name, args, o, limit);
    case JoinAll =>
      if args.Arg? && args.more.Arg? {
        assert [Render(args.t)] + Texts(args.more) == Texts(args);
        JoinMeans(env, [Render(args.t)], args.more, o.had, o.(had := false), limit);
      }
    case Error =>
      assert [] + Texts(args) == Texts(args);
      EachMeans(env, [], args, o.(toError := true), limit);
    case System =>
      if env.system(name, Texts(args)).Select? {
        SelectMeans(env, args, env.system(name, Texts(args)).nr, o, limit);
      }
    case _ =>
  }

  lemma RepMeans(env: Env, name: string, args: ArgList, o: Out, limit: nat)
    requires WellFormedArgs(args) && forall a :: a in Texts(args) ==> |a| < limit
    requires Lookup(env, name).Rep?
    ensures Agree(Handle(env, name, Texts(args), o, limit), EvalCall(env, name, args, o))
    decreases args, 1
  {
    hide Lookup, Repeat, EvalRepeat;
    if args.Arg? && args.more.Arg? {
      assert Texts(args)[0] == Render(args.t) && Texts(args)[1] == Texts(args.more)[0] == Render(args.more.t);
      if env.repeat(Render(args.t)).Some? {
        RepeatMeans(env, args.more.t, env.repeat(Render(args.t)).value, o);
      }
    }
  }

  lemma CallMeans(env: Env, name: string, args: ArgList, after: string, nested: bool, o: Out)
    requires '}' !in name && WellFormedArgs(args) && (after == "" || after[0] != '{')
    ensures var e := EvalCall(env, name, args, o);
            Interpret(env, "${" + name + "}" + (RenderArgs(args) + after), nested, false, o) ==
            if e.Ok? then Interpret(env, after, nested, false, e.out) else Halt(e.out)
    decreases args, 3
  {
    hide Interpret, Arguments, Handle, EvalCall;
    CallUnfolds(env, name, RenderArgs(args) + after, nested, false, o);
    SkipsArguments(env, args, after, o);
    HandleMeans(env, name, args, o, |RenderArgs(args) + after| + |name| + 3);
  }

  /** The text of a tree is interpreted as the tree, and then the scan goes on behind it. */
  lemma {:induction false} Continues(env: Env, t: Template, tail: string, nested: bool, o: Out)
    requires WellFormed(t) && (tail == "" || tail[0] != '{')
    ensures var e := Eval(env, t, o);
            Interpret(env, Render(t) + tail, nested, false, o) ==
            if e.Ok? then Interpret(env, tail, nested, false, e.out) else Halt(e.out)
    decreases t, 2
  {
    hide Interpret, Arguments, Handle, EvalCall;
    var s := Render(t) + tail;
    match t
    case Nil =>
      assert s == tail;
    case Chr(c, rest) =>
      Continues(env, rest, tail, nested, PutChar(o, c));
      if c == '$' || c == '}' {
        EscapeUnfolds(env, c, Render(rest) + tail, nested, false, o);
        assert s == ['$', c] + (Render(rest) + tail);
      } else {
        CharUnfolds(env, c, Render(rest) + tail, nested, false, o);
        assert s == [c] + (Render(rest) + tail);
      }
    case Raw(c, rest) =>
      Continues(env, rest, tail, nested, PutChar(PutChar(o, '$'), c));
      EscapeUnfolds(env, c, Render(rest) + tail, nested, false, o);
      assert s == ['$', c] + (Render(rest) + tail);
    case Call(name, args, rest) =>
      var after := Render(rest) + tail;
      assert s == "${" + name + "}" + (RenderArgs(args) + after);
      RenderStart(rest);
      CallMeans(env, name, args, after, nested, o);
      if EvalCall(env, name, args, o).Ok? {
        Continues(env, rest, tail, nested, EvalCall(env, name, args, o).out);
      }
  }

  /** Running the interpreter on the text of a tree prints what the tree means and stops exactly
      behind it: at the end of the template, or at the brace that closes the argument. */
  lemma PrintsMeaning(env: Env, t: Template, tail: string, nested: bool, o: Out)
    requires WellFormed(t) && Closed(tail, nested)
    ensures Interpret(env, Render(t) + tail, nested, false, o) == Expected(Eval(env, t, o), tail)
    decreases t, 3
  {
    hide Interpret, Eval;
    Continues(env, t, tail, nested, o);
    if Eval(env, t, o).Ok? {
      EndUnfolds(env, tail, nested, false, Eval(env, t, o).out);
    }
  }

  /** A dollar sign that ends the template sends the scan past the end of the text, with the
      NUL put out behind it, unless the template has already ended the process. */
  lemma LoneDollarOverruns(env: Env, t: Template, nested: bool, o: Out)
    requires WellFormed(t)
    ensures Eval(env, t, o).Ok? ==>
        Interpret(env, Render(t) + "$", nested, false, o) == Overrun(PutChar(PutChar(Eval(env, t, o).out, '$'), '\0'))
    ensures Interpret(env, Render(t) + "$", nested, true, o) == Overrun(o)
  {
    hide Eval;
    Continues(env, t, "$", nested, o);
    SkipsTemplate(env, t, "$", nested, o);
  }
}
