/** What the ifconfig template interpreter writes, and the parts of its surroundings it asks. */
module TemplateOutput {
  import opened Basics

  const TAB_STOP := 8

  /** Both output streams with their column counters; `toError` says which one is current. */
  datatype Out = Out(stdout: string, column: nat, stderr: string, columnErr: nat, toError: bool, had: bool)

  function Column(o: Out): nat { if o.toError then o.columnErr else o.column }

  function Moved(column: nat, c: char): nat {
    if c == '\n' then 0
    else if c == '\t' then (column / TAB_STOP + 1) * TAB_STOP
    else column + 1
  }

  /** put_char */
  function PutChar(o: Out, c: char): Out {
    if o.toError then o.(stderr := o.stderr + [c], columnErr := Moved(o.columnErr, c), had := true)
    else o.(stdout := o.stdout + [c], column := Moved(o.column, c), had := true)
  }

  /** put_string */
  function PutString(o: Out, s: string): Out
    decreases |s|
  {
    if s == "" then o else PutString(PutChar(o, s[0]), s[1..])
  }

  /** *column += printf (s): the text always goes to stdout. */
  function Printf(o: Out, s: string): Out {
    var p := o.(stdout := o.stdout + s, had := true);
    if o.toError then p.(columnErr := o.columnErr + |s|) else p.(column := o.column + |s|)
  }

  /** Blanks up to the wanted column. */
  function Fill(o: Out, goal: nat): Out
    decreases goal - Column(o)
  {
    if Column(o) < goal then Fill(PutChar(o, ' '), goal) else o
  }

  // ----- what comes out -----

  /** A text goes to the current stream, in order, and to no other. */
  lemma {:induction false} PutStringAppends(o: Out, s: string)
    ensures var p := PutString(o, s);
            && p.toError == o.toError && p.had == (o.had || s != "")
            && p.stdout == o.stdout + (if o.toError then "" else s)
            && p.stderr == o.stderr + (if o.toError then s else "")
            && (o.toError ==> p.column == o.column) && (!o.toError ==> p.columnErr == o.columnErr)
    decreases |s|
  {
    if s != "" {
      PutStringAppends(PutChar(o, s[0]), s[1..]);
      assert [s[0]] + s[1..] == s;
    }
  }

  /** The column counter follows the cursor of a terminal with tab stops every eight columns. */
  lemma ColumnFollows(o: Out, c: char)
    ensures var was, now := Column(o), Column(PutChar(o, c));
            && (c == '\n' ==> now == 0)
            && (c == '\t' ==> now % 8 == 0 && was < now <= was + 8)
            && (c != '\n' && c != '\t' ==> now == was + 1)
  {
  }

  function Blanks(n: nat): string { if n == 0 then "" else " " + Blanks(n - 1) }

  /** Filling prints exactly the blanks that are missing. */
  lemma {:induction false} FillReaches(o: Out, goal: nat)
    ensures Column(Fill(o, goal)) == if Column(o) < goal then goal else Column(o)
    ensures Column(o) < goal ==> Fill(o, goal) == PutString(o, Blanks(goal - Column(o)))
    ensures Column(o) >= goal ==> Fill(o, goal) == o
    decreases goal - Column(o)
  {
    if Column(o) < goal {
      var n := goal - Column(o);
      ColumnFollows(o, ' ');
      FillReaches(PutChar(o, ' '), goal);
      assert Blanks(n)[1..] == Blanks(n - 1);
      assert n == 1 ==> PutString(PutChar(o, ' '), Blanks(0)) == PutChar(o, ' ');
    }
  }

  /** What a handler that asks the kernel or the system finds out. */
  datatype Answer = Select(nr: nat) | Print(text: string) | Fail

  datatype Format = Format(templ: string, docstr: string)

  /** Everything a template can ask for: the interface, the options, the tables, and the C library
      conversions of numbers. */
  datatype Env = Env(
    first: bool,
    verbose: bool,
    name: string,
    progname: string,
    formats: map<string, Format>,
    handles: set<string>,
    repeat: string -> Option<nat>,
    goal: string -> int,
    system: (string, seq<string>) -> Answer)
}
