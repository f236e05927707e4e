/** Macros of ftp: one line of a macro definition is translated into a command line, with arguments
    of the macro put in for `$1`, `$2`, ... and `$i`, and a backslash in front of what is to stay. */
module FtpMacro {
  import opened Basics

  const INT_MAX := 0x7fff_ffff

  predicate IsNumeral(s: string) { forall i :: 0 <= i < |s| ==> IsDigit(s[i]) }

  /** How many digits stand at the front. */
  function Span(s: string): (k: nat)
    ensures k <= |s| && IsNumeral(s[..k]) && (k < |s| ==> !IsDigit(s[k]))
  {
    if s != "" && IsDigit(s[0]) then
      var k := Span(s[1..]);
      assert forall i :: 0 < i < k + 1 ==> s[i] == s[1..][..k][i - 1];
      k + 1
    else 0
  }

  /** The number an argument is asked for by: the digits stop counting before they could leave the
      range of an int. */
  function Clamped(digits: string): nat
    requires IsNumeral(digits)
    decreases |digits|
  {
    if digits == "" then 0
    else
      var j := Clamped(digits[..|digits| - 1]);
      if j <= (INT_MAX - 9) / 10 then 10 * j + Value(digits[|digits| - 1]) else j
  }

  function Numeral(digits: string): nat
    requires IsNumeral(digits)
    decreases |digits|
  {
    if digits == "" then 0 else 10 * Numeral(digits[..|digits| - 1]) + Value(digits[|digits| - 1])
  }

  /** The clamped number stays an int, and asks for the same argument as the number written there,
      however long, as long as there are fewer than 214748364 arguments. */
  lemma {:induction false} ClampIsHarmless(digits: string, argv: seq<string>)
    requires IsNumeral(digits) && |argv| - 2 < (INT_MAX - 9) / 10 + 1
    ensures Clamped(digits) <= INT_MAX
    ensures Clamped(digits) <= |argv| - 2 <==> Numeral(digits) <= |argv| - 2
    ensures Clamped(digits) <= |argv| - 2 ==> Clamped(digits) == Numeral(digits)
    decreases |digits|
  {
    ClampIsExact(digits);
  }

  lemma {:induction false} ClampIsExact(digits: string)
    requires IsNumeral(digits)
    ensures Clamped(digits) <= INT_MAX && Clamped(digits) <= Numeral(digits)
    ensures Clamped(digits) == Numeral(digits) || Clamped(digits) > (INT_MAX - 9) / 10
    decreases |digits|
  {
    if digits != "" {
      ClampIsExact(digits[..|digits| - 1]);
    }
  }

  // ----- translating a line -----

  /** `$N`: the N-th argument behind the name of the macro; argv[0] is the command, argv[1] the name. */
  function Nth(argv: seq<string>, n: nat): string {
    if n <= |argv| - 2 then argv[n + 1] else ""
  }

  /** `$i`: the argument of the present round. */
  function Current(argv: seq<string>, count: nat): string {
    if count < |argv| then argv[count] else ""
  }

  /** What domacro puts into `line` for the rest s of a line of the definition. */
  function Expand(s: string, argv: seq<string>, count: nat): string {
    if s == "" then ""
    else if s[0] == '\\' then
      if |s| == 1 then "\0" else [s[1]] + Expand(s[2..], argv, count)
    else if s[0] == '$' && |s| > 1 && IsDigit(s[1]) then
      var k := Span(s[1..]);
      Nth(argv, Clamped(s[1..][..k])) + Expand(s[1 + k..], argv, count)
    else if s[0] == '$' && |s| > 1 && s[1] == 'i' then
      Current(argv, count) + Expand(s[2..], argv, count)
    else [s[0]] + Expand(s[1..], argv, count)
  }

  /** How many blanks a line starts with. */
  function Blanks(s: string): (k: nat)
    ensures k <= |s| && (forall i :: 0 <= i < k ==> IsSpace(s[i])) && (k < |s| ==> !IsSpace(s[k]))
  {
    if s != "" && IsSpace(s[0]) then
      var k := Blanks(s[1..]);
      assert forall i :: 0 < i < k + 1 ==> s[i] == s[1..][i - 1];
      k + 1
    else 0
  }

  // ----- what a line means -----

  datatype Piece = Plain(c: char) | Escaped(c: char) | Argument(digits: string) | Round

  function Show(ps: seq<Piece>): string {
    if ps == [] then "" else ShowOne(ps[0]) + Show(ps[1..])
  }

  function ShowOne(p: Piece): string {
    match p
    case Plain(c) => [c]
    case Escaped(c) => ['\\', c]
    case Argument(digits) => "$" + digits
    case Round => "$i"
  }

  function Meaning(ps: seq<Piece>, argv: seq<string>, count: nat): string
    requires Proper(ps)
  {
    if ps == [] then "" else MeaningOne(ps[0], argv, count) + Meaning(ps[1..], argv, count)
  }

  function MeaningOne(p: Piece, argv: seq<string>, count: nat): string
    requires p.Argument? ==> IsNumeral(p.digits)
  {
    match p
    case Plain(c) => [c]
    case Escaped(c) => [c]
    case Argument(digits) => Nth(argv, Numeral(digits))
    case Round => Current(argv, count)
  }

  /** The pieces can be told apart again: a dollar that stands for itself is not followed by a digit
      or by `i`, a number not by a digit, and a backslash does not stand for itself. */
  predicate Proper(ps: seq<Piece>) {
    ps == [] || (Proper(ps[1..]) && ProperOne(ps[0], Show(ps[1..])))
  }

  predicate ProperOne(p: Piece, next: string) {
    match p
    case Plain(c) => c != '\\' && (c == '$' ==> next == "" || !(IsDigit(next[0]) || next[0] == 'i'))
    case Escaped(c) => true
    case Argument(digits) => digits != "" && IsNumeral(digits) && (next == "" || !IsDigit(next[0]))
    case Round => true
  }

  lemma {:induction false} SpanIs(digits: string, next: string)
    requires IsNumeral(digits) && (next == "" || !IsDigit(next[0]))
    ensures Span(digits + next) == |digits|
    decreases |digits|
  {
    if digits == "" {
      assert digits + next == next;
    } else {
      assert (digits + next)[1..] == digits[1..] + next;
      SpanIs(digits[1..], next);
    }
  }

  lemma ExpandArgument(digits: string, next: string, argv: seq<string>, count: nat)
    requires ProperOne(Argument(digits), next) && |argv| - 2 < (INT_MAX - 9) / 10 + 1
    ensures Expand("$" + digits + next, argv, count) == Nth(argv, Numeral(digits)) + Expand(next, argv, count)
  {
    hide Span, Clamped, Numeral;
    var s := "$" + digits + next;
    assert s[1..] == digits + next;
    SpanIs(digits, next);
    ClampIsHarmless(digits, argv);
    assert s[1..][..|digits|] == digits && s[1 + |digits|..] == next;
    assert s[1] == digits[0];
  }

  lemma ExpandOne(p: Piece, next: string, argv: seq<string>, count: nat)
    requires ProperOne(p, next) && |argv| - 2 < (INT_MAX - 9) / 10 + 1
    ensures Expand(ShowOne(p) + next, argv, count) == MeaningOne(p, argv, count) + Expand(next, argv, count)
  {
    hide Span, Clamped, Numeral;
    var s := ShowOne(p) + next;
    if p.Argument? {
      ExpandArgument(p.digits, next, argv, count);
    } else if p.Plain? {
      assert s[1..] == next;
    } else {
      assert s[2..] == next;
    }
  }

  /** Translating the text of a list of pieces gives its meaning. */
  lemma {:induction false} ExpandMeans(ps: seq<Piece>, argv: seq<string>, count: nat)
    requires Proper(ps) && |argv| - 2 < (INT_MAX - 9) / 10 + 1
    ensures Expand(Show(ps), argv, count) == Meaning(ps, argv, count)
    decreases |ps|
  {
    hide Expand, MeaningOne, ShowOne;
    if ps == [] {
      ExpandNothing("", argv, count);
    } else {
      ExpandOne(ps[0], Show(ps[1..]), argv, count);
      ExpandMeans(ps[1..], argv, count);
    }
  }

  /** A backslash at the very end, itself not escaped. */
  predicate EndsOpen(s: string) {
    s != "" && if s[0] == '\\' then |s| == 1 || EndsOpen(s[2..]) else EndsOpen(s[1..])
  }

  lemma {:induction false} EndsOpenSkips(s: string, k: nat)
    requires k <= |s| && IsNumeral(s[..k]) && EndsOpen(s[k..])
    ensures EndsOpen(s)
    decreases k
  {
    if k > 0 {
      assert s[0] == s[..k][0];
      assert s[1..][..k - 1] == s[..k][1..];
      assert s[1..][k - 1..] == s[k..];
      EndsOpenSkips(s[1..], k - 1);
    } else {
      assert s[0..] == s;
    }
  }

  lemma FirstArgument(s: string) returns (p: Piece, k: nat)
    requires |s| > 1 && s[0] == '$' && IsDigit(s[1]) && !EndsOpen(s)
    ensures 0 < k <= |s| && ShowOne(p) == s[..k] && ProperOne(p, s[k..]) && !EndsOpen(s[k..])
  {
    k := 1 + Span(s[1..]);
    p := Argument(s[1..k]);
    assert s[1..k] == s[1..][..k - 1] && s[1..][k - 1..] == s[k..];
    assert k > 1 && (k < |s| ==> s[k] == s[1..][k - 1]);
    if EndsOpen(s[k..]) {
      EndsOpenSkips(s[1..], k - 1);
    }
  }

  lemma FirstPiece(s: string) returns (p: Piece, k: nat)
    requires s != "" && !EndsOpen(s)
    ensures 0 < k <= |s| && ShowOne(p) == s[..k] && ProperOne(p, s[k..]) && !EndsOpen(s[k..])
  {
    hide IsNumeral, Span;
    if s[0] == '\\' {
      p, k := Escaped(s[1]), 2;
    } else if s[0] == '$' && |s| > 1 && IsDigit(s[1]) {
      p, k := FirstArgument(s);
    } else if s[0] == '$' && |s| > 1 && s[1] == 'i' {
      p, k := Round, 2;
      assert s[1..][1..] == s[2..];
    } else {
      p, k := Plain(s[0]), 1;
    }
  }

  /** Every line that does not end in an open backslash is the text of such a list of pieces. */
  lemma {:induction false} EveryLineIsShown(s: string) returns (ps: seq<Piece>)
    requires !EndsOpen(s)
    ensures Proper(ps) && Show(ps) == s
    decreases |s|
  {
    hide EndsOpen, ShowOne, ProperOne;
    if s == "" {
      return [];
    }
    var p, k := FirstPiece(s);
    var rest := EveryLineIsShown(s[k..]);
    ps := [p] + rest;
    assert ps[1..] == rest;
    assert s == s[..k] + s[k..];
  }

  /** Called as `cmd name x y`, a macro finds x for `$1` and y for `$2`, and in its rounds x and then y for
      `$i`; a number that is too great stands for nothing. */
  lemma ArgumentsOfACall(cmd: string, name: string, x: string, y: string)
    ensures var argv := [cmd, name, x, y];
            && Expand("$1", argv, 2) == x && Expand("$2", argv, 2) == y && Expand("$3", argv, 2) == ""
            && Expand("$i", argv, 2) == x && Expand("$i", argv, 3) == y && Expand("$i", argv, 4) == ""
  {
    var argv := [cmd, name, x, y];
    OneDigit('1', argv);
    OneDigit('2', argv);
    OneDigit('3', argv);
    TheRound(argv, 2);
    TheRound(argv, 3);
    TheRound(argv, 4);
  }

  lemma OneDigit(d: char, argv: seq<string>)
    requires IsDigit(d)
    ensures Expand(['$', d], argv, 2) == Nth(argv, Value(d))
  {
    var s := ['$', d];
    SpanIs([d], "");
    assert s[1..] == [d] == [d] + "" && [d][..1] == [d] && s[2..] == "";
    assert Clamped([d]) == Value(d) by {
      assert [d][..0] == "" && Clamped("") == 0;
    }
  }

  lemma TheRound(argv: seq<string>, count: nat)
    ensures Expand("$i", argv, count) == if count < |argv| then argv[count] else ""
  {
    assert "$i"[2..] == "";
  }

  // ----- a backslash with nothing behind it -----

  lemma {:induction false} StaysOpen(s: string, k: nat)
    requires k <= |s| && IsNumeral(s[..k]) && EndsOpen(s)
    ensures EndsOpen(s[k..])
    decreases k
  {
    if k > 0 {
      assert s[0] == s[..k][0];
      assert s[1..][..k - 1] == s[..k][1..];
      assert s[1..][k - 1..] == s[k..];
      StaysOpen(s[1..], k - 1);
    } else {
      assert s[0..] == s;
    }
  }

  lemma {:induction false} SpanStays(s: string, n: nat)
    requires Span(s) <= n <= |s|
    ensures Span(s[..n]) == Span(s)
    decreases |s|
  {
    if s != "" && IsDigit(s[0]) {
      SpanStays(s[1..], n - 1);
      assert s[..n][1..] == s[1..][..n - 1];
    }
  }

  lemma ExpandNumber(s: string, argv: seq<string>, count: nat)
    requires |s| > 1 && s[0] == '$' && IsDigit(s[1])
    ensures var k := Span(s[1..]);
            Expand(s, argv, count) == Nth(argv, Clamped(s[1..][..k])) + Expand(s[1 + k..], argv, count)
  {
    hide Nth, Clamped, Span;
  }

  /** What is put in for the front of a line, and where it goes on, with or without the end of the line. */
  predicate Fronts(s: string, argv: seq<string>, count: nat, put: string, k: nat) {
    && 0 < k < |s| && EndsOpen(s[k..])
    && Expand(s, argv, count) == put + Expand(s[k..], argv, count)
    && Expand(s[..|s| - 1], argv, count) == put + Expand(s[k..][..|s| - 1 - k], argv, count)
  }

  lemma ArgumentFronts(s: string, argv: seq<string>, count: nat)
    requires |s| > 1 && s[0] == '$' && IsDigit(s[1]) && EndsOpen(s)
    ensures var k := Span(s[1..]); Fronts(s, argv, count, Nth(argv, Clamped(s[1..][..k])), 1 + k)
  {
    hide Nth, Clamped, Expand, Span;
    var k, t := Span(s[1..]), s[..|s| - 1];
    StaysOpen(s[1..], k);
    assert s[1..][k..] == s[1 + k..];
    SpanStays(s[1..], |s| - 2);
    assert t[1..] == s[1..][..|s| - 2] && t[1..][..k] == s[1..][..k];
    assert t[1 + k..] == s[1 + k..][..|s| - 2 - k];
    ExpandNumber(s, argv, count);
    ExpandNumber(t, argv, count);
  }

  lemma PairFronts(s: string, argv: seq<string>, count: nat)
    requires |s| > 1 && (s[0] == '\\' || (s[0] == '$' && s[1] == 'i')) && EndsOpen(s)
    ensures Fronts(s, argv, count, if s[0] == '\\' then [s[1]] else Current(argv, count), 2)
  {
    hide Nth, Clamped, Current, Span;
    assert s[1..][1..] == s[2..];
    assert EndsOpen(s[2..]);
    assert s[..|s| - 1][2..] == s[2..][..|s| - 3];
  }

  lemma OneFronts(s: string, argv: seq<string>, count: nat)
    requires |s| > 1 && s[0] != '\\' && !(s[0] == '$' && (IsDigit(s[1]) || s[1] == 'i')) && EndsOpen(s)
    ensures Fronts(s, argv, count, [s[0]], 1)
  {
    hide Nth, Clamped, Current, Span;
    assert s[..|s| - 1][1..] == s[1..][..|s| - 2];
  }

  lemma FrontIsTranslated(s: string, argv: seq<string>, count: nat) returns (put: string, k: nat)
    requires |s| > 1 && EndsOpen(s)
    ensures Fronts(s, argv, count, put, k)
  {
    hide Nth, Clamped, Current, Span, Expand, Fronts, EndsOpen;
    if s[0] == '$' && IsDigit(s[1]) {
      ArgumentFronts(s, argv, count);
      k := 1 + Span(s[1..]);
      put := Nth(argv, Clamped(s[1..][..k - 1]));
    } else if s[0] == '\\' || (s[0] == '$' && s[1] == 'i') {
      PairFronts(s, argv, count);
      put, k := if s[0] == '\\' then [s[1]] else Current(argv, count), 2;
    } else {
      OneFronts(s, argv, count);
      put, k := [s[0]], 1;
    }
  }

  lemma OnlyBackslash(argv: seq<string>, count: nat)
    ensures Expand("\\", argv, count) == "\0" && Expand("\\"[..0], argv, count) == ""
  {
  }

  lemma OpenIsBackslash(s: string)
    requires |s| == 1 && EndsOpen(s)
    ensures s == "\\"
  {
  }

  /** An open backslash at the end of a line copies the NUL that ends the line: as a C string, the translation
      is that of the line without the backslash. */
  lemma {:induction false} OpenBackslash(s: string, argv: seq<string>, count: nat)
    requires s != "" && EndsOpen(s)
    ensures s[|s| - 1] == '\\'
    ensures Expand(s, argv, count) == Expand(s[..|s| - 1], argv, count) + "\0"
    decreases |s|
  {
    hide Expand, EndsOpen;
    if |s| == 1 {
      OpenIsBackslash(s);
      OnlyBackslash(argv, count);
    } else {
      var put, k := FrontIsTranslated(s, argv, count);
      OpenBackslash(s[k..], argv, count);
      var rest := Expand(s[k..][..|s| - 1 - k], argv, count);
      assert put + (rest + "\0") == (put + rest) + "\0";
    }
  }

  /** Any text at all can be written in a macro: each character behind a backslash. */
  function Quote(t: string): string {
    if t == "" then "" else ['\\', t[0]] + Quote(t[1..])
  }

  lemma {:induction false} ExpandUnquotes(t: string, argv: seq<string>, count: nat)
    ensures Expand(Quote(t), argv, count) == t
  {
    if t != "" {
      assert Quote(t)[2..] == Quote(t[1..]);
      ExpandUnquotes(t[1..], argv, count);
    }
  }

  /** The command line in which the line of a macro is built; `track` is where cp2 points to. */
  class MacroLine {
    var line: array<char>
    var track: nat

    predicate Valid()
      reads this
    {
      track < line.Length
    }

    function Text(): string
      requires Valid()
      reads this, line
    {
      line[..track]
    }

    /** The line starts with room for the command line that called the macro. */
    constructor (caller: string)
      ensures Valid() && fresh(line) && Text() == ""
    {
      line := new char[|caller| + 2](i => '\0');
      track := 0;
    }

    method Lengthen(add: nat)
      requires Valid()
      modifies this`line
      ensures Valid() && Text() == old(Text()) && track + add < line.Length
      ensures line == old(line) || fresh(line)
    {
      if track + add < line.Length {
        return;
      }
      var bigger := new char[line.Length + add](i => '\0');
      for i := 0 to line.Length
        invariant bigger.Length == line.Length + add && fresh(bigger)
        invariant bigger[..i] == line[..i]
        invariant line == old(line) && line[..] == old(line[..])
      {
        bigger[i] := line[i];
      }
      assert bigger[..track] == bigger[..line.Length][..track];
      line := bigger;
    }

    /** *cp2++ = c */
    method Put(c: char)
      requires Valid() && track + 1 < line.Length
      modifies this`track, line
      ensures Valid() && Text() == old(Text()) + [c] && track == old(track) + 1
    {
      line[track] := c;
      track := track + 1;
    }

    /** strcpy (cp2, arg) and the step behind the copy */
    method Copy(arg: string)
      requires Valid() && track + |arg| + 2 < line.Length
      modifies this`track, line
      ensures Valid() && Text() == old(Text()) + arg && track + 2 < line.Length
    {
      ghost var was := Text();
      for i := 0 to |arg|
        invariant track == old(track) && line[..track] == was && line[track..track + i] == arg[..i]
      {
        line[track + i] := arg[i];
      }
      line[track + |arg|] := '\0';
      assert line[..track + |arg|] == line[..track] + line[track..track + |arg|];
      track := track + |arg|;
    }

    /** An argument is put in, after making room for it. */
    method Insert(arg: string)
      requires Valid()
      modifies this, line
      ensures Valid() && track + 2 < line.Length && Text() == old(Text()) + arg
      ensures line == old(line) || fresh(line)
    {
      Lengthen(|arg| + 2);
      Copy(arg);
    }

    method InsertIf(given: bool, arg: string)
      requires Valid() && track + 1 < line.Length && (!given ==> arg == "")
      modifies this, line
      ensures Valid() && track + 1 < line.Length && Text() == old(Text()) + arg
      ensures line == old(line) || fresh(line)
    {
      if given {
        Insert(arg);
      }
    }

    /** One round of the translation: what is put in, and how far cp1 goes. */
    method ExpandStep(s: string, cp: nat, argv: seq<string>, count: nat) returns (next: nat)
      requires Valid() && cp < |s|
      modifies this, line
      ensures Valid() && cp < next <= |s|
      ensures Text() + Expand(s[next..], argv, count) == old(Text()) + Expand(s[cp..], argv, count)
      ensures line == old(line) || fresh(line)
    {
      hide Expand, Clamped, Span, IsNumeral;
      Lengthen(2);
      ghost var put;
      ExpandSteps(s, cp, argv, count);
      if s[cp] == '\\' {
        var c := if cp + 1 < |s| then s[cp + 1] else '\0';
        Put(c);
        next := if cp + 1 < |s| then cp + 2 else cp + 1;
        ExpandNothing(s, argv, count);
        put := [c];
      } else if s[cp] == '$' && cp + 1 < |s| && IsDigit(s[cp + 1]) {
        var j;
        j, next := ReadNumber(s, cp + 1);
        SpanStarts(s[cp + 1..]);
        put := Nth(argv, j);
        InsertIf(|argv| - 2 >= j, if |argv| - 2 >= j then argv[j + 1] else "");
      } else if s[cp] == '$' && cp + 1 < |s| && s[cp + 1] == 'i' {
        next := cp + 2;
        put := Current(argv, count);
        InsertIf(count < |argv|, if count < |argv| then argv[count] else "");
      } else {
        Put(s[cp]);
        next := cp + 1;
        put := [s[cp]];
      }
      Associative(old(Text()), put, Expand(s[next..], argv, count));
    }

    /** Translates one line of a macro, from its first character that is not blank; no write leaves
        the buffer, however long the arguments. */
    method ExpandLine(text: string, argv: seq<string>, count: nat)
      requires Valid()
      modifies this, line
      ensures Valid() && line[track] == '\0' && Text() == Expand(text[Blanks(text)..], argv, count)
      ensures line == old(line) || fresh(line)
    {
      hide Expand;
      var start := 0;
      while start < |text| && IsSpace(text[start])
        invariant start <= |text| && Blanks(text) == start + Blanks(text[start..])
      {
        assert text[start..][1..] == text[start + 1..];
        start := start + 1;
      }
      var s := text[start..];
      var cp := 0;
      track := 0;
      assert Text() == "" && s[0..] == s;
      while cp < |s|
        invariant cp <= |s| && Valid()
        invariant line == old(line) || fresh(line)
        invariant Text() + Expand(s[cp..], argv, count) == Expand(s, argv, count)
        decreases |s| - cp
      {
        cp := ExpandStep(s, cp, argv, count);
      }
      ExpandNothing(s, argv, count);
      line[track] := '\0';
    }
  }

  lemma Associative(a: string, b: string, c: string)
    ensures a + (b + c) == a + b + c
  {
  }

  lemma SpanStarts(s: string)
    ensures s != "" && IsDigit(s[0]) ==> Span(s) > 0
  {
  }

  /** The digits at a position, as a number that stays an int, and the position behind them. */
  method ReadNumber(s: string, cp: nat) returns (j: nat, next: nat)
    requires cp <= |s|
    ensures j <= INT_MAX && next == cp + Span(s[cp..]) && j == Clamped(s[cp..][..next - cp])
  {
    j, next := 0, cp;
    while next < |s| && IsDigit(s[next])
      invariant cp <= next <= |s| && j <= INT_MAX && IsNumeral(s[cp..next]) && j == Clamped(s[cp..next])
    {
      ClampedStep(s[cp..next], s[next]);
      assert s[cp..next + 1] == s[cp..next] + [s[next]];
      if j <= (INT_MAX - 9) / 10 {
        j := 10 * j + Value(s[next]);
      }
      next := next + 1;
    }
    assert s[cp..] == s[cp..next] + s[next..];
    SpanIs(s[cp..next], s[next..]);
    assert s[cp..][..next - cp] == s[cp..next];
  }

  lemma ExpandNothing(s: string, argv: seq<string>, count: nat)
    ensures Expand(s[|s|..], argv, count) == ""
  {
  }

  lemma ClampedStep(digits: string, c: char)
    requires IsNumeral(digits) && IsDigit(c)
    ensures IsNumeral(digits + [c])
    ensures var j := Clamped(digits); Clamped(digits + [c]) == if j <= (INT_MAX - 9) / 10 then 10 * j + Value(c) else j
  {
    var s := digits + [c];
    assert s[..|s| - 1] == digits;
  }

  /** One step of the translation, at a position in the line. */
  lemma ExpandSteps(s: string, cp: nat, argv: seq<string>, count: nat)
    requires cp < |s|
    ensures var t := s[cp..];
            Expand(t, argv, count) ==
            if s[cp] == '\\' then
              (if cp + 1 == |s| then "\0" else [s[cp + 1]] + Expand(s[cp + 2..], argv, count))
            else if s[cp] == '$' && cp + 1 < |s| && IsDigit(s[cp + 1]) then
              var k := Span(s[cp + 1..]);
              Nth(argv, Clamped(s[cp + 1..][..k])) + Expand(s[cp + 1 + k..], argv, count)
            else if s[cp] == '$' && cp + 1 < |s| && s[cp + 1] == 'i' then
              Current(argv, count) + Expand(s[cp + 2..], argv, count)
            else [s[cp]] + Expand(s[cp + 1..], argv, count)
  {
    hide Clamped, Span;
    var t := s[cp..];
    assert t[1..] == s[cp + 1..];
    if |t| > 1 {
      assert t[2..] == s[cp + 2..];
      var k := Span(t[1..]);
      assert t[1 + k..] == s[cp + 1 + k..];
    }
  }
}
