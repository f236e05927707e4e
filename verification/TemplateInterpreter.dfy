/** print_interfaceX of ifconfig/printif.c on any template text, as a function.  The remaining text
    plays the part of the pointer form->format; the end of the string is the end of the sequence. */
module TemplateInterpreter {
  import opened Basics
  import opened TemplateOutput

  /** Normal return with the text that is left; the process ends; or the scan runs past the end, after
      putting out the NUL there. */
  datatype Outcome = Done(rest: string, out: Out) | Halt(out: Out) | Overrun(out: Out)

  datatype Scan = Args(args: seq<string>, rest: string, out: Out) | Lost(out: Out)

  function IndexOf(s: string, c: char): (i: nat)
    ensures i <= |s|
    ensures forall j :: 0 <= j < i ==> s[j] != c
    ensures i < |s| ==> s[i] == c
  {
    if s == "" || s[0] == c then 0 else 1 + IndexOf(s[1..], c)
  }

  predicate AtEnd(s: string, nested: bool) {
    s == "" || (nested && s[0] == '}')
  }

  function Echo(quiet: bool, o: Out, c: char): Out {
    if quiet then o else PutChar(o, c)
  }

  function Interpret(env: Env, s: string, nested: bool, quiet: bool, o: Out): (r: Outcome)
    ensures r.Done? ==> |r.rest| <= |s|
    ensures quiet ==> !r.Halt?
    decreases |s|, 3
  {
    if AtEnd(s, nested) then Done(s, o)
    else if s[0] != '$' then Interpret(env, s[1..], nested, quiet, Echo(quiet, o, s[0]))
    else if |s| == 1 then Overrun(Echo(quiet, Echo(quiet, o, '$'), '\0'))
    else if s[1] == '$' || s[1] == '}' then Interpret(env, s[2..], nested, quiet, Echo(quiet, o, s[1]))
    else if s[1] != '{' then Interpret(env, s[2..], nested, quiet, Echo(quiet, Echo(quiet, o, '$'), s[1]))
    else
      var q := IndexOf(s[2..], '}');
      if q == |s| - 2 then
        Done("", PutString(o, s))
      else
        match Arguments(env, s[2 + q + 1..], o)
        case Lost(p) => Overrun(p)
        case Args(args, rest, p) =>
          if quiet then Interpret(env, rest, nested, quiet, p)
          else
            match Handle(env, s[2..2 + q], args, p, |s|)
            case Done(_, p') => Interpret(env, rest, nested, quiet, p')
            case bad => bad
  }

  /** The arguments of a call, found by interpreting them in quiet mode. */
  function Arguments(env: Env, s: string, o: Out): (r: Scan)
    ensures r.Args? ==> |r.rest| <= |s| && forall a :: a in r.args ==> |a| < |s|
    decreases |s|, 4
  {
    if s == "" || s[0] != '{' then Args([], s, o)
    else
      match Interpret(env, s[1..], true, true, o)
      case Overrun(p) => Lost(p)
      case Done(q, p) =>
        var arg := s[1..|s| - |q|];
        var next := if q != "" then q[1..] else q;
        match Arguments(env, next, p)
        case Lost(p') => Lost(p')
        case Args(args, rest, p') => Args([arg] + args, rest, p')
  }

  /** The arguments found behind a first one. */
  function WithFirst(arg: string, a: Scan): Scan {
    match a case Lost(p) => Lost(p) case Args(args, rest, p) => Args([arg] + args, rest, p)
  }

  /** select_arg */
  function SelectArg(env: Env, args: seq<string>, nr: nat, o: Out, limit: nat): (r: Outcome)
    requires forall a :: a in args ==> |a| < limit
    decreases limit, 0
  {
    if nr < |args| then Interpret(env, args[nr], true, false, o) else Done("", o)
  }

  /** fh_rep */
  function Repeat(env: Env, arg: string, count: nat, o: Out): (r: Outcome)
    decreases |arg|, 4, count
  {
    if count == 0 then Done("", o)
    else
      match Interpret(env, arg, true, false, o)
      case Done(_, p) => Repeat(env, arg, count - 1, p)
      case bad => bad
  }

  /** fh_join, from argument i on */
  function Join(env: Env, args: seq<string>, i: nat, saved: bool, o: Out, limit: nat): (r: Outcome)
    requires 0 < i <= |args| && forall a :: a in args ==> |a| < limit
    decreases limit, 0, |args| - i
  {
    if i == |args| then Done("", o.(had := saved))
    else
      var p := if o.had then PutString(o, args[0]).(had := false) else o;
      match Interpret(env, args[i], true, false, p)
      case Done(_, p') => Join(env, args, i + 1, saved || o.had, p', limit)
      case bad => bad
  }

  /** fh_error, from argument i on */
  function Each(env: Env, args: seq<string>, i: nat, o: Out, limit: nat): (r: Outcome)
    requires i <= |args| && forall a :: a in args ==> |a| < limit
    decreases limit, 0, |args| - i
  {
    if i == |args| then Done("", o)
    else
      match Interpret(env, args[i], true, false, o)
      case Done(_, p) => Each(env, args, i + 1, p, limit)
      case bad => bad
  }

  function Back(r: Outcome, toError: bool): Outcome {
    if r.Done? then Done(r.rest, r.out.(toError := toError)) else r
  }

  /** The texts of a call that a handler looks at without interpreting them. */
  function FormatNamed(env: Env, args: seq<string>): string {
    if |args| == 0 then env.name else args[0]
  }

  function TabGoal(env: Env, args: seq<string>, o: Out): nat {
    var goal := if |args| >= 1 then env.goal(args[0]) else 0;
    if goal <= 0 then (Column(o) / TAB_STOP + 1) * TAB_STOP else goal
  }

  /** format_handles: which routine a name stands for. */
  datatype Handler =
    | Unknown | Nothing | FormatQuery | ExistsQuery | FirstQuery | VerboseQuery | Newline | Tabulator | Tab
    | Name | Progname | Docstr | Defn | Rep | JoinAll | Error | ExitNow | System

  function Lookup(env: Env, name: string): Handler {
    if name !in env.handles then Unknown
    else
      match name
      case "" => Nothing
      case "format?" => FormatQuery
      case "exists?" => ExistsQuery
      case "first?" => FirstQuery
      case "verbose?" => VerboseQuery
      case "newline" => Newline
      case "\\n" => Newline
      case "\\t" => Tabulator
      case "tab" => Tab
      case "name" => Name
      case "progname" => Progname
      case "docstr" => Docstr
      case "defn" => Defn
      case "rep" => Rep
      case "join" => JoinAll
      case "error" => Error
      case "exit" => ExitNow
      case _ => System
  }

  /** format_handler */
  function Handle(env: Env, name: string, args: seq<string>, o: Out, limit: nat): (r: Outcome)
    requires forall a :: a in args ==> |a| < limit
    decreases limit, 1
  {
    match Lookup(env, name)
    case Unknown => Done("", Printf(PutString(Printf(o, "("), name), " unknown)"))
    case Nothing => Done("", o)
    case FormatQuery =>
      if args == [] then Done("", o) else SelectArg(env, args, if args[0] in env.formats then 1 else 2, o, limit)
    case ExistsQuery =>
      if args == [] then Done("", o) else SelectArg(env, args, if args[0] in env.handles then 1 else 2, o, limit)
    case FirstQuery => SelectArg(env, args, if env.first then 0 else 1, o, limit)
    case VerboseQuery => SelectArg(env, args, if env.verbose then 0 else 1, o, limit)
    case Newline => Done("", PutChar(o, '\n'))
    case Tabulator => Done("", PutChar(o, '\t'))
    case Tab => Done("", Fill(o, TabGoal(env, args, o)))
    case Name => Done("", PutString(o, env.name))
    case Progname => Done("", PutString(o, env.progname))
    case Docstr =>
      var f := FormatNamed(env, args);
      if f in env.formats then Done("", PutString(o, env.formats[f].docstr)) else Halt(o)
    case Defn =>
      var f := FormatNamed(env, args);
      if f in env.formats then Done("", PutString(o, env.formats[f].templ)) else Halt(o)
    case Rep =>
      if |args| < 2 then Done("", o)
      else if env.repeat(args[0]).None? then Halt(o)
      else Repeat(env, args[1], env.repeat(args[0]).value, o)
    case JoinAll =>
      if |args| < 2 then Done("", o) else Join(env, args, 1, o.had, o.(had := false), limit)
    case Error => Back(Each(env, args, 0, o.(toError := true), limit), o.toError)
    case ExitNow => Halt(o)
    case System =>
      match env.system(name, args)
      case Select(nr) => SelectArg(env, args, nr, o, limit)
      case Print(text) => Done("", PutString(o, text))
      case Fail => Halt(o)
  }
}
