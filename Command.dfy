/** Command descriptors, the NULL-terminated registry `commands` and
    case-insensitive name matching, as command.h and command.c define them. */
module Command {
  import opened Options
  import opened CText

  /** Whose `init`, `execute` and `print_help_text` a descriptor points to.
      The three function pointers of a descriptor always belong to the same
      command, so one tag stands for all three. */
  datatype Handler = Reset | Help | Led | Button | Adc | Vref | Temp

  /** A `command`: its name, the blurb HELP lists, and its operations. */
  datatype Descriptor = Descriptor(name: string, shortHelpBlurb: string, ops: Handler)

  /** `reset_cmd` of reset-command.c, the one entry of the registry. */
  const ResetCmd: Descriptor := Descriptor("RESET", "Reset the microcontroller", Handler.Reset)

  /** A C array of descriptor pointers whose last element is NULL. */
  predicate Terminated(reg: seq<Option<Descriptor>>) {
    |reg| > 0 && reg[|reg| - 1].None?
  }

  /** The `commands` array of command.c: `reset_cmd`, then the NULL
      sentinel. */
  const Commands: seq<Option<Descriptor>> := [Some(ResetCmd), None]

  /** Index of the first NULL, where every walk over the registry stops. */
  function Sentinel(reg: seq<Option<Descriptor>>): (n: nat)
    requires Terminated(reg)
    ensures n < |reg| && reg[n].None?
    ensures forall j | 0 <= j < n :: reg[j].Some?
  {
    if reg[0].None? then 0 else 1 + Sentinel(reg[1..])
  }

  /** The descriptors a walk `for (cmd = commands; *cmd != NULL; ++cmd)`
      visits, in order. */
  function Entries(reg: seq<Option<Descriptor>>): (es: seq<Descriptor>)
    requires Terminated(reg)
    ensures |es| == Sentinel(reg)
    ensures forall j | 0 <= j < |es| :: reg[j] == Some(es[j])
  {
    if reg[0].None? then [] else [reg[0].value] + Entries(reg[1..])
  }

  /** Walking the registry visits `reset_cmd` exactly once and then stops
      at the sentinel. */
  lemma CommandsVisitResetOnce()
    ensures Terminated(Commands) && Sentinel(Commands) == 1
    ensures Entries(Commands) == [ResetCmd]
  {
    assert Commands[1..] == [None];
  }

  /** `command_match_name`: `strcasecmp(cmd->name, name) == 0`. */
  function MatchName(cmd: Descriptor, name: string): (b: bool)
    ensures NoNul(cmd.name) && NoNul(name) ==> (b <==> EqualIgnoringCase(cmd.name, name))
  {
    CaseCmp(cmd.name, name) == 0
  }

  /** Matching is exact up to case: a name of another length, such as a
      prefix or an extension, never matches. */
  lemma MatchNeedsSameLength(cmd: Descriptor, name: string)
    requires NoNul(cmd.name) && NoNul(name) && |name| != |cmd.name|
    ensures !MatchName(cmd, name)
  {
  }

  /** "reset" matches RESET; "RES" and "RESETX" do not. */
  lemma ResetMatching()
    ensures MatchName(ResetCmd, "reset") && MatchName(ResetCmd, "ReSeT")
    ensures !MatchName(ResetCmd, "RES") && !MatchName(ResetCmd, "RESETX")
  {
    MatchNeedsSameLength(ResetCmd, "RES");
    MatchNeedsSameLength(ResetCmd, "RESETX");
  }

  /** Index of the first descriptor whose name matches, as the HELP loop
      finds it; None when no name matches. */
  function FirstMatching(es: seq<Descriptor>, name: string): (r: Option<nat>)
    ensures r.Some? ==> r.value < |es| && MatchName(es[r.value], name)
    ensures r.Some? ==> forall j | 0 <= j < r.value :: !MatchName(es[j], name)
    ensures r.None? ==> forall j | 0 <= j < |es| :: !MatchName(es[j], name)
  {
    if |es| == 0 then None
    else if MatchName(es[0], name) then Some(0)
    else
      match FirstMatching(es[1..], name)
      case None => None
      case Some(i) => Some(i + 1)
  }

  /** When the names are distinct up to case, the entry found for a name
      is the one that carries it. */
  lemma FirstMatchingUnique(es: seq<Descriptor>, i: nat, name: string)
    requires i < |es| && NoNul(name)
    requires forall j | 0 <= j < |es| :: NoNul(es[j].name)
    requires forall j, k | 0 <= j < k < |es| :: !EqualIgnoringCase(es[j].name, es[k].name)
    requires EqualIgnoringCase(es[i].name, name)
    ensures FirstMatching(es, name) == Some(i)
  {
    var r := FirstMatching(es, name);
    assert MatchName(es[i], name);
    assert r.Some? && r.value <= i;
    FoldTransitive(es[r.value].name, es[i].name, name);
  }
}
