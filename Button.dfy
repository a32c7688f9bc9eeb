/** The BUTTON command of button-command.c: with no argument it reports
    the push button on PORTF pin 6 and its two input options; `BUTTON INV
    ON|OFF` and `BUTTON PUP ON|OFF` switch the pin's inversion and its
    pull-up resistor in PIN6CTRL. */
module ButtonCommand {
  import opened Options
  import opened CText
  import opened Util
  import opened Registers
  import opened Command
  import HelpCommand

  const ButtonCmd: Descriptor := Descriptor("BUTTON", "Displays configures the push button", Handler.Button)

  /** What BUTTON prints, by kind: the three status lines, nothing, the
      unknown argument, or the usage line of INV (`invert`) or PUP. */
  datatype Reply = Status(pressed: bool, invert: bool, pullUp: bool) | Silent
                 | UnknownArgument(arg: string) | Usage(invert: bool)

  /** The value `button_command_execute` returns, what it prints, the new
      PIN6CTRL and how many times it called `iterate_args`. */
  datatype Outcome = Outcome(ok: bool, reply: Reply, pin6Ctrl: bv8, read: nat)

  /** The PIN6CTRL bit a sub-command addresses: INVEN for INV, PULLUPEN for
      PUP. */
  function OptionBit(invert: bool): bv8 {
    if invert then INVEN else PULLUPEN
  }

  /** PIN6CTRL after an option is switched on or off: its bit follows
      `on`, and every other bit, the other option's included, keeps its
      value. */
  function Written(ctrl: bv8, invert: bool, on: bool): (r: bv8)
    ensures r & OptionBit(invert) != 0 <==> on
    ensures r & !OptionBit(invert) == ctrl & !OptionBit(invert)
    ensures r & OptionBit(!invert) == ctrl & OptionBit(!invert)
  {
    if on then SetBits(ctrl, OptionBit(invert)) else ClearBits(ctrl, OptionBit(invert))
  }

  /** `button_command_execute` given its first two arguments, PIN6CTRL
      `ctrl` and the input levels `input` of PORTF. */
  function Decide(arg0: Option<string>, arg1: Option<string>, ctrl: bv8, input: bv8): Outcome {
    match arg0
    case None =>
      Outcome(true, Status(input & PIN6 != 0, ctrl & INVEN != 0, ctrl & PULLUPEN != 0), ctrl, 1)
    case Some(w) =>
      if !(EqualIgnoringCase(w, "INV") || EqualIgnoringCase(w, "PUP")) then
        Outcome(false, UnknownArgument(w), ctrl, 1)
      else
        var invert := EqualIgnoringCase(w, "INV");
        match arg1
        case None => Outcome(false, Usage(invert), ctrl, 2)
        case Some(v) =>
          if !(EqualIgnoringCase(v, "ON") || EqualIgnoringCase(v, "OFF")) then
            Outcome(false, Usage(invert), ctrl, 2)
          else
            Outcome(true, Silent, Written(ctrl, invert, EqualIgnoringCase(v, "ON")), 2)
  }

  /** `button_command_init`: pin 6 becomes an input; the other pins keep
      their direction. */
  method Init(mcu: Mcu)
    modifies mcu`portfDir
    ensures mcu.portfDir == ClearBits(old(mcu.portfDir), PIN6)
  {
    mcu.portfDir := mcu.portfDir & !PIN6;
  }

  /** `button_command_execute` on the argument list that starts at
      `arglist` and ends at the NUL at `end`. As in the source, the flag
      `isOn` holds the raw `strcasecmp(arg, "ON")`, which is nonzero for
      OFF, and the branches clear the bit when it is set: together they
      turn the bit on for ON. */
  method Execute(a: array<char>, arglist: nat, end: nat, mcu: Mcu) returns (ok: bool, reply: Reply)
    requires Framed(a[..], end)
    modifies a, mcu`portfPin6Ctrl
    ensures var o := Decide(Argument(old(a[..]), arglist, end, 0), Argument(old(a[..]), arglist, end, 1),
                            old(mcu.portfPin6Ctrl), mcu.portfIn);
      && ok == o.ok && reply == o.reply && mcu.portfPin6Ctrl == o.pin6Ctrl
      && a[..] == Consumed(old(a[..]), arglist, end, o.read).buf
  {
    ghost var s := a[..];
    var arg, rest := NextArgument(a, s, arglist, arglist, end, 0);
    if arg.Some? {
      var w := arg.value;
      if !(CaseCmp(w, "INV") == 0 || CaseCmp(w, "PUP") == 0) {
        return false, UnknownArgument(w);
      }
      ok, reply := ExecuteOption(a, s, arglist, rest, end, w, mcu);
      return;
    } else {
      var button := mcu.portfIn & PIN6 != 0;
      var invertOn := mcu.portfPin6Ctrl & INVEN != 0;
      var pullUpOn := mcu.portfPin6Ctrl & PULLUPEN != 0;
      reply := Status(button, invertOn, pullUpOn);
    }
    return true, reply;
  }

  /** The INV or PUP branch of `button_command_execute`, after its first
      argument `w` has been read: the ON or OFF argument is read next. */
  method ExecuteOption(a: array<char>, ghost s: seq<char>, ghost arglist0: nat, arglist: nat, end: nat, w: string, mcu: Mcu)
    returns (ok: bool, reply: Reply)
    requires Framed(s, end) && Consumed(s, arglist0, end, 1) == Cursor(a[..], arglist)
    requires EqualIgnoringCase(w, "INV") || EqualIgnoringCase(w, "PUP")
    modifies a, mcu`portfPin6Ctrl
    ensures var o := Decide(Some(w), Argument(s, arglist0, end, 1), old(mcu.portfPin6Ctrl), mcu.portfIn);
      && ok == o.ok && reply == o.reply && mcu.portfPin6Ctrl == o.pin6Ctrl
      && a[..] == Consumed(s, arglist0, end, o.read).buf
  {
    var isInvert := CaseCmp(w, "INV") == 0;
    assert isInvert == EqualIgnoringCase(w, "INV");
    var arg, rest := NextArgument(a, s, arglist0, arglist, end, 1);
    if arg.None? {
      return false, Usage(isInvert);
    }
    var v := arg.value;
    if !(CaseCmp(v, "ON") == 0 || CaseCmp(v, "OFF") == 0) {
      return false, Usage(isInvert);
    }
    var isOn := CaseCmp(v, "ON") != 0;
    assert isOn == !EqualIgnoringCase(v, "ON");
    ghost var ctrl := mcu.portfPin6Ctrl;
    DecideConfigures(w, v, ctrl, mcu.portfIn);
    WriteOption(isInvert, isOn, mcu);
    return true, Silent;
  }

  /** The write to PIN6CTRL that ends a well-formed INV or PUP: with
      `isOn` set the option's bit is cleared, otherwise it is set. */
  method WriteOption(isInvert: bool, isOn: bool, mcu: Mcu)
    modifies mcu`portfPin6Ctrl
    ensures mcu.portfPin6Ctrl == Written(old(mcu.portfPin6Ctrl), isInvert, !isOn)
  {
    if isInvert {
      if isOn {
        mcu.portfPin6Ctrl := mcu.portfPin6Ctrl & !INVEN;
      } else {
        mcu.portfPin6Ctrl := mcu.portfPin6Ctrl | INVEN;
      }
    } else {
      if isOn {
        mcu.portfPin6Ctrl := mcu.portfPin6Ctrl & !PULLUPEN;
      } else {
        mcu.portfPin6Ctrl := mcu.portfPin6Ctrl | PULLUPEN;
      }
    }
  }

  /** The outcome of a well-formed INV or PUP sub-command. */
  lemma DecideConfigures(w: string, v: string, ctrl: bv8, input: bv8)
    requires EqualIgnoringCase(w, "INV") || EqualIgnoringCase(w, "PUP")
    requires EqualIgnoringCase(v, "ON") || EqualIgnoringCase(v, "OFF")
    ensures Decide(Some(w), Some(v), ctrl, input) ==
      Outcome(true, Silent, Written(ctrl, EqualIgnoringCase(w, "INV"), EqualIgnoringCase(v, "ON")), 2)
  {
  }

  /** INV and PUP with ON or OFF (in any case) succeed and turn their own
      bit on for ON and off for OFF; every other bit of PIN6CTRL, the other
      option's included, keeps its value. */
  lemma Configure(w: string, v: string, ctrl: bv8, input: bv8)
    requires EqualIgnoringCase(w, "INV") || EqualIgnoringCase(w, "PUP")
    requires EqualIgnoringCase(v, "ON") || EqualIgnoringCase(v, "OFF")
    ensures var o := Decide(Some(w), Some(v), ctrl, input);
      var bit := OptionBit(EqualIgnoringCase(w, "INV"));
      && o.ok && o.reply == Silent && o.read == 2
      && (o.pin6Ctrl & bit != 0 <==> EqualIgnoringCase(v, "ON"))
      && o.pin6Ctrl & !bit == ctrl & !bit
  {
    DecideConfigures(w, v, ctrl, input);
  }

  /** INV leaves the pull-up alone and PUP leaves the inversion alone. */
  lemma OptionsIndependent(w: string, v: string, ctrl: bv8, input: bv8)
    requires EqualIgnoringCase(w, "INV") || EqualIgnoringCase(w, "PUP")
    requires EqualIgnoringCase(v, "ON") || EqualIgnoringCase(v, "OFF")
    ensures var o := Decide(Some(w), Some(v), ctrl, input);
      var other := OptionBit(!EqualIgnoringCase(w, "INV"));
      o.pin6Ctrl & other == ctrl & other
  {
    DecideConfigures(w, v, ctrl, input);
  }

  /** No word is both INV and PUP. */
  lemma InvOrPup(w: string)
    ensures !(EqualIgnoringCase(w, "INV") && EqualIgnoringCase(w, "PUP"))
  {
    if EqualIgnoringCase(w, "INV") {
      assert Lower(w[0]) == 'i';
    }
  }

  /** Giving the same sub-command twice has the effect of giving it once. */
  lemma ConfigureIdempotent(w: string, v: string, ctrl: bv8, input: bv8)
    ensures var once := Decide(Some(w), Some(v), ctrl, input).pin6Ctrl;
      Decide(Some(w), Some(v), once, input).pin6Ctrl == once
  {
  }

  /** After a successful INV or PUP, the status reports the option exactly
      as it was set, and the other option as before. */
  lemma ConfigureThenQuery(w: string, v: string, ctrl: bv8, input: bv8)
    requires EqualIgnoringCase(w, "INV") || EqualIgnoringCase(w, "PUP")
    requires EqualIgnoringCase(v, "ON") || EqualIgnoringCase(v, "OFF")
    ensures var after := Decide(Some(w), Some(v), ctrl, input).pin6Ctrl;
      var q := Decide(None, None, after, input).reply;
      var before := Decide(None, None, ctrl, input).reply;
      && (EqualIgnoringCase(w, "INV") ==> q == before.(invert := EqualIgnoringCase(v, "ON")))
      && (EqualIgnoringCase(w, "PUP") ==> q == before.(pullUp := EqualIgnoringCase(v, "ON")))
  {
    Configure(w, v, ctrl, input);
    OptionsIndependent(w, v, ctrl, input);
    InvOrPup(w);
  }

  /** The bare command only reads: it succeeds, changes nothing and reports
      the pin level and both options. */
  lemma QueryReads(ctrl: bv8, input: bv8, next: Option<string>)
    ensures var o := Decide(None, next, ctrl, input);
      && o.ok && o.pin6Ctrl == ctrl
      && o.reply == Status(input & PIN6 != 0, ctrl & INVEN != 0, ctrl & PULLUPEN != 0)
  {
  }

  /** Any failure leaves PIN6CTRL untouched. */
  lemma FailureKeepsControl(arg0: Option<string>, arg1: Option<string>, ctrl: bv8, input: bv8)
    ensures !Decide(arg0, arg1, ctrl, input).ok ==> Decide(arg0, arg1, ctrl, input).pin6Ctrl == ctrl
  {
  }

  /** `button_cmd` is not in the registry, which holds only `reset_cmd`, so
      `HELP BUTTON` answers "No such command". */
  lemma Unregistered()
    ensures ButtonCmd !in Entries(Commands)
    ensures HelpCommand.Outcome(Some(ButtonCmd.name), Entries(Commands)) == (false, HelpCommand.NoSuchCommand("BUTTON"))
  {
    CommandsVisitResetOnce();
    HelpCommand.HelpOverCommands(ButtonCmd.name);
  }
}
