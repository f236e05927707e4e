/** When the template interpreter runs past the end of a template text.  Whether it does can be read
    off the text alone, in one scan that knows nothing of arguments, handlers or output. */
module TemplateOverrun {
  import opened TemplateOutput
  import opened TemplateInterpreter

  /** A scan from left to right that takes `$` with the character behind it, and `${` with all up to
      the next `}`, comes upon a dollar sign as the very last character. */
  predicate RunsOff(s: string) {
    if s == "" then false
    else if s[0] != '$' then RunsOff(s[1..])
    else if |s| == 1 then true
    else if s[1] != '{' then RunsOff(s[2..])
    else
      var q := IndexOf(s[2..], '}');
      q < |s| - 2 && RunsOff(s[2 + q + 1..])
  }

  function Cut(s: string, k: nat): string
    requires k <= |s|
  {
    s[..|s| - k]
  }

  lemma {:induction false} IndexOfCut(s: string, k: nat)
    requires k <= |s| && IndexOf(s, '}') < |s| - k
    ensures IndexOf(Cut(s, k), '}') == IndexOf(s, '}')
    decreases |s|
  {
    if s[0] != '}' {
      assert Cut(s, k)[1..] == Cut(s[1..], k);
      IndexOfCut(s[1..], k);
    }
  }

  /** Taking the same end off a text and off what is left of it after some characters. */
  predicate SameEnds(s: string, r: string) {
    |r| <= |s| && forall k: nat :: k <= |r| ==> RunsOff(Cut(s, k)) == RunsOff(Cut(r, k))
  }

  lemma SameEndsPlain(s: string)
    requires s != "" && s[0] != '$'
    ensures SameEnds(s, s[1..])
  {
    forall k: nat | k <= |s[1..]| ensures RunsOff(Cut(s, k)) == RunsOff(Cut(s[1..], k)) {
      assert Cut(s, k)[1..] == Cut(s[1..], k);
    }
  }

  lemma SameEndsEscape(s: string)
    requires |s| > 1 && s[0] == '$' && s[1] != '{'
    ensures SameEnds(s, s[2..])
  {
    forall k: nat | k <= |s[2..]| ensures RunsOff(Cut(s, k)) == RunsOff(Cut(s[2..], k)) {
      assert Cut(s, k)[2..] == Cut(s[2..], k);
    }
  }

  lemma SameEndsName(s: string, q: nat)
    requires |s| > 1 && s[0] == '$' && s[1] == '{' && q == IndexOf(s[2..], '}') < |s| - 2
    ensures SameEnds(s, s[2 + q + 1..])
  {
    forall k: nat | k <= |s[2 + q + 1..]| ensures RunsOff(Cut(s, k)) == RunsOff(Cut(s[2 + q + 1..], k)) {
      assert Cut(s, k)[2..] == Cut(s[2..], k);
      IndexOfCut(s[2..], k);
      assert Cut(s, k)[2 + q + 1..] == Cut(s[2 + q + 1..], k);
    }
  }

  lemma SameEndsChain(a: string, b: string, c: string)
    requires SameEnds(a, b) && SameEnds(b, c)
    ensures SameEnds(a, c)
  {
    hide RunsOff;
    forall k: nat | k <= |c| ensures RunsOff(Cut(a, k)) == RunsOff(Cut(c, k)) {
      assert RunsOff(Cut(a, k)) == RunsOff(Cut(b, k));
    }
  }

  lemma Whole(s: string, r: string)
    requires SameEnds(s, r)
    ensures RunsOff(s) == RunsOff(r) && !RunsOff(s[..|s| - |r|])
  {
    assert Cut(s, 0) == s && Cut(r, 0) == r && Cut(r, |r|) == "" && Cut(s, |r|) == s[..|s| - |r|];
  }

  /** What the way a pass ends says about the text. */
  predicate Tells(s: string, nested: bool, r: Outcome) {
    (r.Overrun? ==> RunsOff(s)) && (r.Done? ==> SameEnds(s, r.rest) && AtEnd(r.rest, nested))
  }

  predicate TellsArgs(s: string, a: Scan) {
    match a
    case Lost(_) => RunsOff(s)
    case Args(args, rest, _) => SameEnds(s, rest) && forall i :: 0 <= i < |args| ==> !RunsOff(args[i])
  }

  lemma TellsOn(s: string, t: string, nested: bool, r: Outcome)
    requires SameEnds(s, t) && Tells(t, nested, r)
    ensures Tells(s, nested, r)
  {
    hide RunsOff, SameEnds;
    Whole(s, t);
    if r.Done? {
      SameEndsChain(s, t, r.rest);
    }
  }

  lemma SameEndsSelf(s: string)
    ensures SameEnds(s, s)
  {
    hide RunsOff;
  }

  /** A dump of an unfinished name ends at the end of the text. */
  lemma SameEndsDump(s: string)
    requires |s| > 1 && s[0] == '$' && s[1] == '{' && IndexOf(s[2..], '}') == |s| - 2
    ensures SameEnds(s, "")
  {
    forall k: nat | k <= 0 ensures RunsOff(Cut(s, k)) == RunsOff(Cut("", k)) {
      assert Cut(s, k) == s;
    }
  }

  /** Every pass, quiet or printing, overruns only when the scan of the text runs off. */
  lemma {:induction false} PassTells(env: Env, s: string, nested: bool, quiet: bool, o: Out)
    ensures Tells(s, nested, Interpret(env, s, nested, quiet, o))
    decreases |s|, 3
  {
    hide RunsOff, SameEnds, Tells, IndexOf;
    var r := Interpret(env, s, nested, quiet, o);
    if AtEnd(s, nested) {
      TellsHere(s, nested, o);
    } else if s[0] != '$' {
      SameEndsPlain(s);
      PassTells(env, s[1..], nested, quiet, Echo(quiet, o, s[0]));
      TellsOn(s, s[1..], nested, r);
    } else if |s| == 1 {
      TellsOverrun(s, nested, r);
    } else if s[1] != '{' {
      SameEndsEscape(s);
      var p := if s[1] == '$' || s[1] == '}' then o else Echo(quiet, o, '$');
      PassTells(env, s[2..], nested, quiet, Echo(quiet, p, s[1]));
      TellsOn(s, s[2..], nested, r);
    } else if IndexOf(s[2..], '}') == |s| - 2 {
      SameEndsDump(s);
      TellsHere("", nested, r.out);
      TellsOn(s, "", nested, r);
    } else {
      CallTells(env, s, nested, quiet, o);
    }
  }

  lemma TellsHere(s: string, nested: bool, o: Out)
    requires AtEnd(s, nested)
    ensures Tells(s, nested, Done(s, o))
  {
    SameEndsSelf(s);
  }

  lemma TellsOverrun(s: string, nested: bool, r: Outcome)
    requires s == "$" && r.Overrun?
    ensures Tells(s, nested, r)
  {
  }

  lemma TellsHalt(s: string, nested: bool, r: Outcome)
    requires r.Halt?
    ensures Tells(s, nested, r)
  {
  }

  lemma CallTells(env: Env, s: string, nested: bool, quiet: bool, o: Out)
    requires |s| > 1 && s[0] == '$' && s[1] == '{' && IndexOf(s[2..], '}') != |s| - 2
    ensures Tells(s, nested, Interpret(env, s, nested, quiet, o))
    decreases |s|, 2
  {
    hide RunsOff, SameEnds, Tells, TellsArgs, Handle;
    var q := IndexOf(s[2..], '}');
    var after := s[2 + q + 1..];
    var r, a := Interpret(env, s, nested, quiet, o), Arguments(env, after, o);
    SameEndsName(s, q);
    ArgumentsTell(env, after, o);
    if a.Lost? {
      LostTells(after, nested, a);
      TellsOn(s, after, nested, Overrun(a.out));
    } else {
      FoundArgs(after, a);
      SameEndsChain(s, after, a.rest);
      if quiet {
        PassTells(env, a.rest, nested, quiet, a.out);
        TellsOn(s, a.rest, nested, r);
      } else {
        var h := Handle(env, s[2..2 + q], a.args, a.out, |s|);
        HandlerStays(env, s[2..2 + q], a.args, a.out, |s|);
        if h.Done? {
          PassTells(env, a.rest, nested, quiet, h.out);
          TellsOn(s, a.rest, nested, r);
        } else {
          TellsHalt(s, nested, r);
        }
      }
    }
  }

  lemma LostTells(s: string, nested: bool, a: Scan)
    requires TellsArgs(s, a) && a.Lost?
    ensures Tells(s, nested, Overrun(a.out))
  {
  }

  lemma FoundArgs(s: string, a: Scan)
    requires TellsArgs(s, a) && a.Args?
    ensures SameEnds(s, a.rest) && forall i :: 0 <= i < |a.args| ==> !RunsOff(a.args[i])
  {
  }

  lemma WithFirstTells(s: string, next: string, arg: string, a: Scan)
    requires SameEnds(s, next) && TellsArgs(next, a) && !RunsOff(arg)
    ensures TellsArgs(s, WithFirst(arg, a))
  {
    hide RunsOff, SameEnds;
    Whole(s, next);
    if a.Args? {
      SameEndsChain(s, next, a.rest);
    }
  }

  /** Arguments are found whole: none of them runs off. */
  lemma ArgumentsTell(env: Env, s: string, o: Out)
    ensures TellsArgs(s, Arguments(env, s, o))
    decreases |s|, 4
  {
    hide RunsOff, SameEnds, Tells, TellsArgs, Interpret;
    if s == "" || s[0] != '{' {
      NoArgsTell(s, o);
    } else {
      var r := Interpret(env, s[1..], true, true, o);
      PassTells(env, s[1..], true, true, o);
      if r.Done? {
        TakesArgument(s, r);
        var next := if r.rest != "" then r.rest[1..] else r.rest;
        ArgumentsTell(env, next, r.out);
        WithFirstTells(s, next, s[1..|s| - |r.rest|], Arguments(env, next, r.out));
      } else {
        ArgumentOverruns(s, r);
      }
    }
  }

  lemma NoArgsTell(s: string, o: Out)
    ensures TellsArgs(s, Args([], s, o))
  {
    SameEndsSelf(s);
  }

  lemma ArgumentOverruns(s: string, r: Outcome)
    requires s != "" && s[0] == '{' && Tells(s[1..], true, r) && r.Overrun?
    ensures TellsArgs(s, Lost(r.out))
  {
    OverrunTells(s[1..], r);
  }

  lemma OverrunTells(s: string, r: Outcome)
    requires Tells(s, true, r) && r.Overrun?
    ensures RunsOff(s)
  {
  }

  /** One argument: its text does not run off, and its brace is passed like any other character. */
  lemma TakesArgument(s: string, r: Outcome)
    requires s != "" && s[0] == '{' && r.Done? && Tells(s[1..], true, r)
    ensures var next := if r.rest != "" then r.rest[1..] else r.rest;
            |r.rest| < |s| && SameEnds(s, next) && !RunsOff(s[1..|s| - |r.rest|])
  {
    hide RunsOff, SameEnds;
    SameEndsPlain(s);
    Whole(s[1..], r.rest);
    assert |r.rest| <= |s[1..]| by { Shorter(s[1..], r.rest); }
    assert s[1..][..|s[1..]| - |r.rest|] == s[1..|s| - |r.rest|];
    SameEndsChain(s, s[1..], r.rest);
    if r.rest != "" {
      SameEndsPlain(r.rest);
      SameEndsChain(s, r.rest, r.rest[1..]);
    }
  }

  lemma Shorter(s: string, r: string)
    requires SameEnds(s, r)
    ensures |r| <= |s|
  {
  }

  // ----- handlers -----

  lemma ArgumentStays(env: Env, arg: string, o: Out)
    requires !RunsOff(arg)
    ensures !Interpret(env, arg, true, false, o).Overrun?
    decreases |arg|, 4
  {
    PassTells(env, arg, true, false, o);
  }

  lemma SelectStays(env: Env, args: seq<string>, nr: nat, o: Out, limit: nat)
    requires forall a :: a in args ==> |a| < limit
    requires forall i :: 0 <= i < |args| ==> !RunsOff(args[i])
    ensures !SelectArg(env, args, nr, o, limit).Overrun?
    decreases limit, 0
  {
    if nr < |args| {
      ArgumentStays(env, args[nr], o);
    }
  }

  lemma {:induction false} RepeatStays(env: Env, arg: string, count: nat, o: Out)
    requires !RunsOff(arg)
    ensures !Repeat(env, arg, count, o).Overrun?
    decreases |arg|, 5, count
  {
    hide RunsOff, Interpret;
    if count > 0 {
      ArgumentStays(env, arg, o);
      var r := Interpret(env, arg, true, false, o);
      if r.Done? {
        RepeatStays(env, arg, count - 1, r.out);
      }
    }
  }

  lemma {:induction false} JoinStays(env: Env, args: seq<string>, i: nat, saved: bool, o: Out, limit: nat)
    requires 0 < i <= |args| && forall a :: a in args ==> |a| < limit
    requires forall j :: 0 <= j < |args| ==> !RunsOff(args[j])
    ensures !Join(env, args, i, saved, o, limit).Overrun?
    decreases limit, 0, |args| - i
  {
    hide RunsOff, Interpret;
    if i < |args| {
      var p := if o.had then PutString(o, args[0]).(had := false) else o;
      ArgumentStays(env, args[i], p);
      var r := Interpret(env, args[i], true, false, p);
      if r.Done? {
        JoinStays(env, args, i + 1, saved || o.had, r.out, limit);
      }
    }
  }

  lemma {:induction false} EachStays(env: Env, args: seq<string>, i: nat, o: Out, limit: nat)
    requires i <= |args| && forall a :: a in args ==> |a| < limit
    requires forall j :: 0 <= j < |args| ==> !RunsOff(args[j])
    ensures !Each(env, args, i, o, limit).Overrun?
    decreases limit, 0, |args| - i
  {
    hide RunsOff, Interpret;
    if i < |args| {
      ArgumentStays(env, args[i], o);
      var r := Interpret(env, args[i], true, false, o);
      if r.Done? {
        EachStays(env, args, i + 1, r.out, limit);
      }
    }
  }

  /** A handler never runs past the end of an argument that does not run off. */
  lemma HandlerStays(env: Env, name: string, args: seq<string>, o: Out, limit: nat)
    requires forall a :: a in args ==> |a| < limit
    requires forall i :: 0 <= i < |args| ==> !RunsOff(args[i])
    ensures !Handle(env, name, args, o, limit).Overrun?
    decreases limit, 1
  {
    hide RunsOff, SelectArg, Repeat, Join, Each, Lookup;
    match Lookup(env, name)
    case FormatQuery =>
      if args != [] {
        SelectStays(env, args, if args[0] in env.formats then 1 else 2, o, limit);
      }
    case ExistsQuery =>
      if args != [] {
        SelectStays(env, args, if args[0] in env.handles then 1 else 2, o, limit);
      }
    case FirstQuery => SelectStays(env, args, if env.first then 0 else 1, o, limit);
    case VerboseQuery => SelectStays(env, args, if env.verbose then 0 else 1, o, limit);
    case Rep =>
      if |args| >= 2 && env.repeat(args[0]).Some? {
        assert args[1] in args;
        RepeatStays(env, args[1], env.repeat(args[0]).value, o);
      }
    case JoinAll =>
      if |args| >= 2 {
        JoinStays(env, args, 1, o.had, o.(had := false), limit);
      }
    case Error => EachStays(env, args, 0, o.(toError := true), limit);
    case System =>
      var answer := env.system(name, args);
      if answer.Select? {
        SelectStays(env, args, answer.nr, o, limit);
      }
    case _ =>
  }

  // ----- main result -----

  /** For every text: a quiet run over it goes past its end exactly if the scan runs off.  So does a
      printing run, unless a handler ends the process before. */
  lemma OverrunsIff(env: Env, s: string, o: Out)
    ensures Interpret(env, s, false, true, o).Overrun? <==> RunsOff(s)
    ensures var r := Interpret(env, s, false, false, o); r.Halt? || (r.Overrun? <==> RunsOff(s))
  {
    hide Interpret, RunsOff;
    PassTells(env, s, false, true, o);
    PassTells(env, s, false, false, o);
    Settles(s, Interpret(env, s, false, true, o));
    Settles(s, Interpret(env, s, false, false, o));
  }

  lemma Settles(s: string, r: Outcome)
    requires Tells(s, false, r)
    ensures r.Halt? || (r.Overrun? <==> RunsOff(s))
  {
    if r.Done? {
      Whole(s, r.rest);
    }
  }

  lemma SomeTexts()
    ensures RunsOff("x$") && RunsOff("}$") && RunsOff("${}{$")
    ensures !RunsOff("${x$") && !RunsOff("$$")
  {
    assert "x$"[1..] == "$" && "}$"[1..] == "$";
    assert RunsOff("$");
    var s, t := "${}{$", "${x$";
    assert s[2..] == "}{$" && IndexOf(s[2..], '}') == 0;
    assert s[3..] == "{$" && s[3..][1..] == "$";
    assert t[2..] == "x$" && t[2..][1..] == "$" && "$"[1..] == "";
    assert IndexOf("", '}') == 0 && IndexOf("$", '}') == 1 && IndexOf("x$", '}') == 2;
    assert "$$"[2..] == "";
  }

  /** A text whose last character is no dollar sign does not run off. */
  lemma {:induction false} EndsInDollar(s: string)
    ensures RunsOff(s) ==> s != "" && s[|s| - 1] == '$'
    decreases |s|
  {
    if s != "" {
      if s[0] != '$' {
        EndsInDollar(s[1..]);
      } else if |s| > 1 && s[1] != '{' {
        EndsInDollar(s[2..]);
      } else if |s| > 1 && IndexOf(s[2..], '}') < |s| - 2 {
        EndsInDollar(s[2 + IndexOf(s[2..], '}') + 1..]);
      }
    }
  }
}
