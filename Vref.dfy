/** The VREF command of vref-command.c: with no argument it names the ADC0
    reference voltage selected in VREF.CTRLA; `VREF SET <v>` selects one. */
module VrefCommand {
  import opened Options
  import opened CText
  import opened Util
  import opened Registers
  import opened Command
  import HelpCommand
  import opened Table

  const VrefCmd: Descriptor := Descriptor("VREF", "Displays and sets the reference voltage", Handler.Vref)

  /** `set_args`: the name the macro `A(major, minor)` builds and the
      ADC0REFSEL group value it stands for, in the order of the source. */
  const SetArgs: seq<Named> := [
    Named("0V55", VREF_ADC0REFSEL_0V55), Named("1V1", VREF_ADC0REFSEL_1V1),
    Named("1V5", VREF_ADC0REFSEL_1V5), Named("2V5", VREF_ADC0REFSEL_2V5),
    Named("4V34", VREF_ADC0REFSEL_4V34)
  ]

  /** `7 << 4`: the three ADC0REFSEL bits of CTRLA. */
  const VOLTAGE_MASK: bv8 := 7 << 4

  /** What VREF prints, by kind: the name of the selected reference (None
      when CTRLA holds no listed value and nothing is printed), nothing, the
      unknown argument, or the usage line. */
  datatype Reply = Reference(name: Option<string>) | Silent | UnknownArgument(arg: string) | Usage

  /** The value `vref_command_execute` returns, what it prints, the new
      CTRLA and how many times it called `iterate_args`. */
  datatype Outcome = Outcome(ok: bool, reply: Reply, ctrlA: bv8, read: nat)

  /** The name the query prints for CTRLA `c`: the first entry whose value
      equals the ADC0REFSEL bits of `c`. */
  function Selected(c: bv8): Option<string> {
    match ValueIndex(SetArgs, c & VOLTAGE_MASK)
    case None => None
    case Some(i) => Some(SetArgs[i].name)
  }

  /** `vref_command_execute` given its first two arguments and CTRLA `c`. */
  function Decide(arg0: Option<string>, arg1: Option<string>, c: bv8): Outcome {
    match arg0
    case None => Outcome(true, Reference(Selected(c)), c, 1)
    case Some(w) =>
      if !EqualIgnoringCase(w, "SET") then Outcome(false, UnknownArgument(w), c, 1)
      else
        match arg1
        case None => Outcome(false, Usage, c, 2)
        case Some(v) =>
          match NameIndex(SetArgs, v)
          case None => Outcome(false, Usage, c, 2)
          case Some(i) => Outcome(true, Silent, SetArgs[i].value, 2)
  }

  /** `vref_command_init`: CTRLA `|=` the value of 0V55, which is zero, so
      the register keeps whatever it held. */
  method Init(mcu: Mcu)
    modifies mcu`vrefCtrlA
    ensures mcu.vrefCtrlA == old(mcu.vrefCtrlA)
  {
    mcu.vrefCtrlA := mcu.vrefCtrlA | VREF_ADC0REFSEL_0V55;
  }

  /** `vref_command_execute` on the argument list that starts at `arglist`
      and ends at the NUL at `end`. */
  method Execute(a: array<char>, arglist: nat, end: nat, mcu: Mcu) returns (ok: bool, reply: Reply)
    requires Framed(a[..], end)
    modifies a, mcu`vrefCtrlA
    ensures var o := Decide(Argument(old(a[..]), arglist, end, 0), Argument(old(a[..]), arglist, end, 1),
                            old(mcu.vrefCtrlA));
      && ok == o.ok && reply == o.reply && mcu.vrefCtrlA == o.ctrlA
      && a[..] == Consumed(old(a[..]), arglist, end, o.read).buf
  {
    ghost var s := a[..];
    var arg, rest := NextArgument(a, s, arglist, arglist, end, 0);
    if arg.Some? {
      if CaseCmp(arg.value, "SET") != 0 {
        return false, UnknownArgument(arg.value);
      }
      ok, reply := ExecuteSet(a, s, arglist, rest, end, arg.value, mcu);
    } else {
      var voltage := mcu.vrefCtrlA;
      var found, name := FindValue(SetArgs, voltage & VOLTAGE_MASK);
      ok, reply := true, Reference(if found then Some(name) else None);
    }
  }

  /** The SET branch, after its first argument `w` has been read: the
      voltage name is read next, looked up, and written over all of CTRLA. */
  method ExecuteSet(a: array<char>, ghost s: seq<char>, ghost arglist0: nat, arglist: nat, end: nat,
                    ghost w: string, mcu: Mcu)
    returns (ok: bool, reply: Reply)
    requires Framed(s, end) && Consumed(s, arglist0, end, 1) == Cursor(a[..], arglist)
    requires EqualIgnoringCase(w, "SET")
    modifies a, mcu`vrefCtrlA
    ensures var o := Decide(Some(w), Argument(s, arglist0, end, 1), old(mcu.vrefCtrlA));
      && ok == o.ok && reply == o.reply && mcu.vrefCtrlA == o.ctrlA
      && a[..] == Consumed(s, arglist0, end, o.read).buf
  {
    var arg, rest := NextArgument(a, s, arglist0, arglist, end, 1);
    if arg.None? {
      return false, Usage;
    }
    SetArgsWellFormed();
    var found, voltage := FindName(SetArgs, arg.value);
    if !found {
      return false, Usage;
    }
    mcu.vrefCtrlA := voltage;
    return true, Silent;
  }

  /** The table's names are C strings distinct up to case, its values are
      distinct, and every value lies within the ADC0REFSEL bits. */
  lemma SetArgsWellFormed()
    ensures Names(SetArgs) && DistinctNames(SetArgs) && DistinctValues(SetArgs)
    ensures forall i | 0 <= i < |SetArgs| :: SetArgs[i].value & VOLTAGE_MASK == SetArgs[i].value
  {
    assert SetArgs[0].name == "0V55";
    forall j, k | 0 <= j < k < |SetArgs| ensures !EqualIgnoringCase(SetArgs[j].name, SetArgs[k].name) {
      assert Lower(SetArgs[j].name[0]) != Lower(SetArgs[k].name[0]) || Lower(SetArgs[j].name[2]) != Lower(SetArgs[k].name[2]);
    }
  }

  /** SET succeeds exactly for a listed name, in any case, and then
      writes that entry's value over the whole register, whatever it held:
      the other bits of CTRLA are cleared. A failed SET keeps CTRLA. */
  lemma SetOverwrites(w: string, v: string, c: bv8)
    requires EqualIgnoringCase(w, "SET")
    ensures var o := Decide(Some(w), Some(v), c);
      && (o.ok <==> NameIndex(SetArgs, v).Some?)
      && (o.ok ==> o.ctrlA == SetArgs[NameIndex(SetArgs, v).value].value && o.ctrlA & !VOLTAGE_MASK == 0)
      && (!o.ok ==> o.ctrlA == c && o.reply == Usage)
  {
    SetArgsWellFormed();
  }

  /** After a successful SET the query names the voltage that was set, in
      the table's own spelling. */
  lemma SetThenQuery(w: string, v: string, c: bv8)
    requires EqualIgnoringCase(w, "SET") && NameIndex(SetArgs, v).Some?
    ensures var after := Decide(Some(w), Some(v), c).ctrlA;
      Decide(None, None, after).reply == Reference(Some(SetArgs[NameIndex(SetArgs, v).value].name))
  {
    var i := NameIndex(SetArgs, v).value;
    SetArgsWellFormed();
    ValueFindsEntry(SetArgs, i);
  }

  /** The query looks at the ADC0REFSEL bits only; it names a voltage
      exactly when they hold one of the five listed values, so the three
      unlisted patterns 0x50, 0x60 and 0x70 print nothing. */
  lemma QueryNames(c: bv8)
    ensures Selected(c) == Selected(c & VOLTAGE_MASK)
    ensures Selected(c).Some? <==> c & VOLTAGE_MASK < 0x50
  {
    var m := c & VOLTAGE_MASK;
    assert m & VOLTAGE_MASK == m;
    if m < 0x50 {
      assert m == 0x00 || m == 0x10 || m == 0x20 || m == 0x30 || m == 0x40;
      SetArgsWellFormed();
      if m == 0x00 { ValueFindsEntry(SetArgs, 0); }
      else if m == 0x10 { ValueFindsEntry(SetArgs, 1); }
      else if m == 0x40 { ValueFindsEntry(SetArgs, 2); }
      else if m == 0x20 { ValueFindsEntry(SetArgs, 3); }
      else { ValueFindsEntry(SetArgs, 4); }
    }
  }

  /** "VREF SET 2v5" selects 2.5 V, and the query then prints "2V5". */
  lemma SetExample(c: bv8)
    ensures Decide(Some("set"), Some("2v5"), c) == Outcome(true, Silent, 0x20, 2)
    ensures Decide(None, None, 0x20).reply == Reference(Some("2V5"))
  {
    SetArgsWellFormed();
    NameFindsEntry(SetArgs, 3, "2v5");
    ValueFindsEntry(SetArgs, 3);
  }

  /** `vref_cmd` is not in the registry, which holds only `reset_cmd`, so
      `HELP VREF` answers "No such command". */
  lemma Unregistered()
    ensures VrefCmd !in Entries(Commands)
    ensures HelpCommand.Outcome(Some(VrefCmd.name), Entries(Commands)) == (false, HelpCommand.NoSuchCommand("VREF"))
  {
    CommandsVisitResetOnce();
    HelpCommand.HelpOverCommands(VrefCmd.name);
  }
}
