/** The HELP command of help-command.c: with no argument it lists every
    registered command with its blurb; with one it runs the help text of the
    first command of that name. */
module HelpCommand {
  import opened Options
  import opened CText
  import opened Util
  import opened Command

  const HelpCmd: Descriptor := Descriptor("HELP", "Displays help for commands", Handler.Help)

  /** One line of the listing: a command's name and its blurb. */
  datatype Line = Line(name: string, blurb: string)

  /** What HELP prints, by kind: the listing of all commands, the help of
      one command (its header line, then its own `print_help_text`), or the
      "No such command" message. */
  datatype Reply = Listing(lines: seq<Line>) | CommandHelp(name: string, ops: Handler) | NoSuchCommand(arg: string)

  /** The line `printf("\t%s\t%s\r\n", c->name, c->short_help_blurb)` of
      each entry, in registry order. */
  function Lines(es: seq<Descriptor>): (ls: seq<Line>)
    ensures |ls| == |es|
    ensures forall j | 0 <= j < |es| :: ls[j] == Line(es[j].name, es[j].shortHelpBlurb)
  {
    if |es| == 0 then [] else [Line(es[0].name, es[0].shortHelpBlurb)] + Lines(es[1..])
  }

  /** The outcome of `help_command_execute` for its first argument `arg`
      over the entries `es` of the registry: the value it returns and what
      it prints. */
  function Outcome(arg: Option<string>, es: seq<Descriptor>): (bool, Reply)
  {
    match arg
    case None => (true, Listing(Lines(es)))
    case Some(name) =>
      match FirstMatching(es, name)
      case Some(i) => (true, CommandHelp(es[i].name, es[i].ops))
      case None => (false, NoSuchCommand(name))
  }

  /** `help_command_execute(arglist, arglist_end)` over the registry `reg`:
      one turn of the argument idiom, then a walk over the registry. */
  method Execute(a: array<char>, arglist: nat, end: nat, reg: seq<Option<Descriptor>>)
    returns (ok: bool, reply: Reply)
    requires Framed(a[..], end) && Terminated(reg)
    modifies a
    ensures (ok, reply) == Outcome(Argument(old(a[..]), arglist, end, 0), Entries(reg))
    ensures a[..] == Consumed(old(a[..]), arglist, end, 1).buf
  {
    var arg, rest := NextArgument(a, a[..], arglist, arglist, end, 0);
    if arg.Some? {
      var found, i := FindCommand(reg, arg.value);
      if found {
        reply := CommandHelp(reg[i].value.name, reg[i].value.ops);
      } else {
        reply := NoSuchCommand(arg.value);
      }
      ok := found;
    } else {
      var lines := ListCommands(reg);
      reply := Listing(lines);
      ok := true;
    }
  }

  /** The loop `for (cmd = commands; *cmd != NULL; ++cmd)` that looks for
      the first command whose name matches, with its `break`. */
  method FindCommand(reg: seq<Option<Descriptor>>, name: string) returns (found: bool, i: nat)
    requires Terminated(reg)
    ensures found ==> i < Sentinel(reg) && FirstMatching(Entries(reg), name) == Some(i)
    ensures !found <==> FirstMatching(Entries(reg), name) == None
  {
    ghost var es := Entries(reg);
    found := false;
    i := 0;
    while reg[i].Some?
      invariant 0 <= i <= Sentinel(reg)
      invariant forall j | 0 <= j < i :: !MatchName(es[j], name)
      decreases |reg| - i
    {
      if MatchName(reg[i].value, name) {
        found := true;
        break;
      }
      i := i + 1;
    }
    RegistryWalk(es, i, name, found);
  }

  /** The listing loop: one line per registered command, in order. */
  method ListCommands(reg: seq<Option<Descriptor>>) returns (lines: seq<Line>)
    requires Terminated(reg)
    ensures lines == Lines(Entries(reg))
  {
    ghost var es := Entries(reg);
    lines := [];
    var i := 0;
    while reg[i].Some?
      invariant 0 <= i <= Sentinel(reg)
      invariant lines == Lines(es[..i])
      decreases |reg| - i
    {
      lines := lines + [Line(reg[i].value.name, reg[i].value.shortHelpBlurb)];
      LinesSnoc(es, i);
      i := i + 1;
    }
    assert es[..i] == es;
  }

  /** Where the matching walk stops tells the first match. */
  lemma RegistryWalk(es: seq<Descriptor>, i: nat, name: string, found: bool)
    requires i <= |es|
    requires forall j | 0 <= j < i :: !MatchName(es[j], name)
    requires found ==> i < |es| && MatchName(es[i], name)
    requires !found ==> i == |es|
    ensures found ==> FirstMatching(es, name) == Some(i)
    ensures !found ==> FirstMatching(es, name) == None
  {
  }

  lemma LinesSnoc(es: seq<Descriptor>, i: nat)
    requires i < |es|
    ensures Lines(es[..i + 1]) == Lines(es[..i]) + [Line(es[i].name, es[i].shortHelpBlurb)]
  {
  }

  /** With no argument HELP lists RESET, the only registered command; every
      other command name, HELP's own included, is "No such command". */
  lemma HelpOverCommands(name: string)
    requires NoNul(name)
    ensures Outcome(None, Entries(Commands)) == (true, Listing([Line("RESET", "Reset the microcontroller")]))
    ensures EqualIgnoringCase(name, "RESET") ==> Outcome(Some(name), Entries(Commands)) == (true, CommandHelp("RESET", Handler.Reset))
    ensures !EqualIgnoringCase(name, "RESET") ==> Outcome(Some(name), Entries(Commands)) == (false, NoSuchCommand(name))
  {
    CommandsVisitResetOnce();
    assert Lines([ResetCmd]) == [Line("RESET", "Reset the microcontroller")];
    assert MatchName(ResetCmd, name) <==> EqualIgnoringCase("RESET", name);
    assert EqualIgnoringCase("RESET", name) <==> EqualIgnoringCase(name, "RESET");
  }

  /** `help_cmd` is not in the registry, which holds only `reset_cmd`, so
      `HELP HELP` answers "No such command". */
  lemma Unregistered()
    ensures HelpCmd !in Entries(Commands)
    ensures Outcome(Some(HelpCmd.name), Entries(Commands)) == (false, NoSuchCommand("HELP"))
  {
    CommandsVisitResetOnce();
    HelpOverCommands(HelpCmd.name);
  }
}
