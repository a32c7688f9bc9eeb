/** The ADC command of adc-command.c: with no argument it converts the
    selected input and reports RES; `ADC SET A<n>` selects input AIN<n>. */
module AdcCommand {
  import opened Options
  import opened CText
  import opened Util
  import opened Registers
  import opened Command
  import HelpCommand
  import opened Table

  const AdcCmd: Descriptor := Descriptor("ADC", "Reads an analog voltage as digital value", Handler.Adc)

  /** `set_args`: "A0" to "A15", each standing for the MUXPOS value of that
      analog input, AIN0 to AIN15 being 0 to 15. */
  const SetArgs: seq<Named> := [
    Named("A0", 0x00), Named("A1", 0x01), Named("A2", 0x02), Named("A3", 0x03),
    Named("A4", 0x04), Named("A5", 0x05), Named("A6", 0x06), Named("A7", 0x07),
    Named("A8", 0x08), Named("A9", 0x09), Named("A10", 0x0A), Named("A11", 0x0B),
    Named("A12", 0x0C), Named("A13", 0x0D), Named("A14", 0x0E), Named("A15", 0x0F)
  ]

  /** The name the macro `A(n)` builds: 'A' followed by `n` in decimal. */
  function ChannelName(n: nat): (s: string)
    requires n < 16
  {
    if n < 10 then ['A', ('0' as int + n) as char]
    else ['A', '1', ('0' as int + n - 10) as char]
  }

  /** What ADC prints, by kind. */
  datatype Reply = Reading(value: Uint16) | Silent | UnknownArgument(arg: string) | Usage

  /** The value `adc_command_execute` returns, what it prints, the new
      MUXPOS and how many times it called `iterate_args`. */
  datatype Outcome = Outcome(ok: bool, reply: Reply, muxPos: bv8, read: nat)

  /** `adc_command_execute` given its first two arguments, MUXPOS `mux`,
      and `result`, what a conversion in the current set-up delivers. */
  function Decide(arg0: Option<string>, arg1: Option<string>, mux: bv8, result: Uint16): Outcome {
    match arg0
    case None => Outcome(true, Reading(result), mux, 1)
    case Some(w) =>
      if !EqualIgnoringCase(w, "SET") then Outcome(false, UnknownArgument(w), mux, 1)
      else
        match arg1
        case None => Outcome(false, Usage, mux, 2)
        case Some(n) =>
          match NameIndex(SetArgs, n)
          case None => Outcome(false, Usage, mux, 2)
          case Some(i) => Outcome(true, Silent, SetArgs[i].value, 2)
  }

  /** `adc_command_init`: prescaler CLK_PER/4 with the internal reference,
      the ADC enabled in 10-bit mode, input AIN6. */
  method Init(mcu: Mcu)
    modifies mcu`adcCtrlC, mcu`adcCtrlA, mcu`adcMuxPos
    ensures mcu.adcCtrlC == 0x01 && mcu.adcCtrlA == 0x01 && mcu.adcMuxPos == 6
  {
    mcu.adcCtrlC := ADC_PRESC_DIV4 | ADC_REFSEL_INTREF;
    mcu.adcCtrlA := ADC_ENABLE | ADC_RESSEL_10BIT;
    mcu.adcMuxPos := ADC_MUXPOS_AIN6;
  }

  /** `adc_command_execute` on the argument list that starts at `arglist`
      and ends at the NUL at `end`; `convert` is the converter, which the
      bare command starts in the set-up it finds. */
  method Execute(a: array<char>, arglist: nat, end: nat, mcu: Mcu, convert: AdcConfig -> Uint16)
    returns (ok: bool, reply: Reply)
    requires Framed(a[..], end)
    modifies a, mcu`adcMuxPos
    ensures var o := Decide(Argument(old(a[..]), arglist, end, 0), Argument(old(a[..]), arglist, end, 1),
                            old(mcu.adcMuxPos), convert(old(mcu.Adc())));
      && ok == o.ok && reply == o.reply && mcu.adcMuxPos == o.muxPos
      && a[..] == Consumed(old(a[..]), arglist, end, o.read).buf
  {
    ghost var s := a[..];
    var arg, rest := NextArgument(a, s, arglist, arglist, end, 0);
    if arg.Some? {
      if CaseCmp(arg.value, "SET") != 0 {
        return false, UnknownArgument(arg.value);
      }
      ok, reply := ExecuteSet(a, s, arglist, rest, end, arg.value, mcu);
    } else {
      var result := convert(mcu.Adc());
      ok, reply := true, Reading(result);
    }
  }

  /** The SET branch, after its first argument `w` has been read: the
      channel name is read next and looked up in `set_args`. */
  method ExecuteSet(a: array<char>, ghost s: seq<char>, ghost arglist0: nat, arglist: nat, end: nat,
                    ghost w: string, mcu: Mcu)
    returns (ok: bool, reply: Reply)
    requires Framed(s, end) && Consumed(s, arglist0, end, 1) == Cursor(a[..], arglist)
    requires EqualIgnoringCase(w, "SET")
    modifies a, mcu`adcMuxPos
    ensures var o := Decide(Some(w), Argument(s, arglist0, end, 1), old(mcu.adcMuxPos), 0);
      && ok == o.ok && reply == o.reply && mcu.adcMuxPos == o.muxPos
      && a[..] == Consumed(s, arglist0, end, o.read).buf
  {
    var arg, rest := NextArgument(a, s, arglist0, arglist, end, 1);
    if arg.None? {
      return false, Usage;
    }
    SetArgsTable();
    TableNames(SetArgs);
    var found, channel := FindName(SetArgs, arg.value);
    if !found {
      return false, Usage;
    }
    mcu.adcMuxPos := channel;
    return true, Silent;
  }

  /** Entry `n` of the table is channel `n`'s name with MUXPOS value `n`. */
  lemma ChannelNameAt(n: nat)
    requires n < 16
    ensures |SetArgs| == 16 && SetArgs[n].name == ChannelName(n)
  {
  }

  lemma ChannelValueAt(n: nat)
    requires n < 16
    ensures |SetArgs| == 16 && SetArgs[n].value as int == n
  {
  }

  /** A table that, like `set_args`, lists channel `n` at index `n`. */
  predicate ChannelTable(t: seq<Named>) {
    |t| == 16 && forall n | 0 <= n < 16 :: t[n].name == ChannelName(n) && t[n].value as int == n
  }

  lemma SetArgsTable()
    ensures ChannelTable(SetArgs)
  {
    forall n | 0 <= n < 16 ensures SetArgs[n].name == ChannelName(n) && SetArgs[n].value as int == n {
      ChannelNameAt(n);
      ChannelValueAt(n);
    }
  }

  /** The names of such a table are C strings, distinct up to case. */
  lemma TableNames(t: seq<Named>)
    requires ChannelTable(t)
    ensures Names(t) && DistinctNames(t)
  {
    forall j, k | 0 <= j < k < |t| ensures !EqualIgnoringCase(t[j].name, t[k].name) {
      if EqualIgnoringCase(t[j].name, t[k].name) {
        ChannelNamesDistinct(j, k);
      }
    }
  }

  /** Different channels have names that differ even ignoring case. */
  lemma ChannelNamesDistinct(i: nat, j: nat)
    requires i < 16 && j < 16 && EqualIgnoringCase(ChannelName(i), ChannelName(j))
    ensures i == j
  {
    var a, b := ChannelName(i), ChannelName(j);
    if i < 10 {
      assert Lower(a[1]) == Lower(b[1]);
    } else {
      assert Lower(a[2]) == Lower(b[2]);
    }
  }

  /** The words that name a channel: 'A' or 'a', then a digit, or then '1'
      and a digit from 0 to 5. */
  predicate ChannelWord(name: string) {
    && 2 <= |name| <= 3 && Lower(name[0]) == 'a'
    && (|name| == 2 ==> IsDigit(name[1]))
    && (|name| == 3 ==> name[1] == '1' && '0' <= name[2] <= '5')
  }

  /** The channel a channel word names. */
  function ChannelOf(name: string): (n: nat)
    requires ChannelWord(name)
    ensures n < 16 && EqualIgnoringCase(ChannelName(n), name)
  {
    if |name| == 2 then name[1] as int - '0' as int else 10 + name[2] as int - '0' as int
  }

  /** A spelling of channel `n`'s name is a channel word naming `n`. */
  lemma ChannelNameWord(n: nat, name: string)
    requires n < 16 && EqualIgnoringCase(ChannelName(n), name)
    ensures ChannelWord(name) && ChannelOf(name) == n
  {
    var c := ChannelName(n);
    assert Lower(c[1]) == Lower(name[1]);
    if n >= 10 {
      assert Lower(c[2]) == Lower(name[2]);
    }
  }

  /** SET finds an entry exactly for the channel words, and the entry it
      finds selects the channel the word names. */
  lemma ChannelLookup(t: seq<Named>, name: string)
    requires ChannelTable(t)
    ensures NameIndex(t, name).Some? <==> ChannelWord(name)
    ensures ChannelWord(name) ==> NameIndex(t, name) == Some(ChannelOf(name))
    ensures ChannelWord(name) ==> t[ChannelOf(name)].value as int == ChannelOf(name)
  {
    FoundIsWord(t, name);
    if ChannelWord(name) {
      WordIsFound(t, name);
    }
  }

  lemma FoundIsWord(t: seq<Named>, name: string)
    requires ChannelTable(t)
    ensures NameIndex(t, name).Some? ==> ChannelWord(name)
  {
    var r := NameIndex(t, name);
    if r.Some? {
      ChannelNameWord(r.value, name);
    }
  }

  lemma WordIsFound(t: seq<Named>, name: string)
    requires ChannelTable(t) && ChannelWord(name)
    ensures NameIndex(t, name) == Some(ChannelOf(name))
    ensures t[ChannelOf(name)].value as int == ChannelOf(name)
  {
    TableNames(t);
    NameFindsEntry(t, ChannelOf(name), name);
  }

  /** SET A<n> selects input AIN<n> whatever the case of the 'A'; any other
      word is refused with the usage line and MUXPOS keeps its value. */
  lemma SetSelects(w: string, name: string, mux: bv8, result: Uint16)
    requires EqualIgnoringCase(w, "SET")
    ensures ChannelWord(name) ==>
      var o := Decide(Some(w), Some(name), mux, result);
      o.ok && o.reply == Silent && o.muxPos as int == ChannelOf(name) && o.read == 2
    ensures !ChannelWord(name) ==>
      Decide(Some(w), Some(name), mux, result) == Outcome(false, Usage, mux, 2)
  {
    SetArgsTable();
    ChannelLookup(SetArgs, name);
  }

  /** "a6" selects AIN6; "A16", "A06", "A" and "AIN6" are refused. */
  lemma SetExamples()
    ensures ChannelWord("a6") && ChannelOf("a6") == 6
    ensures !ChannelWord("A16") && !ChannelWord("A06") && !ChannelWord("A") && !ChannelWord("AIN6")
  {
  }

  /** `adc_cmd` is not in the registry, which holds only `reset_cmd`, so
      `HELP ADC` answers "No such command". */
  lemma Unregistered()
    ensures AdcCmd !in Entries(Commands)
    ensures HelpCommand.Outcome(Some(AdcCmd.name), Entries(Commands)) == (false, HelpCommand.NoSuchCommand("ADC"))
  {
    CommandsVisitResetOnce();
    HelpCommand.HelpOverCommands(AdcCmd.name);
  }
}
