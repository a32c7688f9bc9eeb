/** The LED command of led-command.c: `LED ON` and `LED OFF` drive the LED
    on PORTF pin 5 and stop blinking, `LED SET <n>` makes the timer
    interrupt blink it with duty cycle `n`/256. */
module LedCommand {
  import opened Options
  import opened CText
  import opened Util
  import opened Registers
  import opened Command
  import HelpCommand

  const LedCmd: Descriptor := Descriptor("LED", "Displays and configures the LED", Handler.Led)

  /** What LED prints, by kind. */
  datatype Reply = Silent | Usage | UnknownArgument(arg: string)

  /** What LED does to the LED: nothing, switch it on or off steadily, or
      let the timer blink it with a duty cycle. */
  datatype Action = Keep | Switch(on: bool) | Blink(duty: Uint8)

  /** The value `led_command_execute` returns, what it prints, what it does,
      and how many times it called `iterate_args`. */
  datatype Outcome = Outcome(ok: bool, reply: Reply, action: Action, read: nat)

  /** The checks `LED SET` makes on the number it is given: `strtol` base
      10, a zero that comes with `errno` set or with nothing converted is
      refused, then so is anything outside 0 to 255. */
  function ParseDuty(arg: string): (d: Option<Uint8>)
    ensures d.Some? <==> StrToL(arg).endIndex > 0 && 0 <= StrToL(arg).value <= 255
    ensures d.Some? ==> d.value == StrToL(arg).value
  {
    var c := StrToL(arg);
    if c.value == 0 && (c.rangeError || c.endIndex == 0) then None
    else if c.value < 0 || c.value > 255 then None
    else Some(c.value)
  }

  /** The checks of `LED SET` in the order the source makes them, each
      failure an early return with the usage line. */
  method CheckDuty(arg: string) returns (d: Option<Uint8>)
    ensures d == ParseDuty(arg)
  {
    var c := StrToL(arg);
    if c.value == 0 {
      if c.rangeError {
        return None;
      }
      if c.endIndex == 0 {
        return None;
      }
    }
    if c.value < 0 {
      return None;
    }
    if c.value > 255 {
      return None;
    }
    return Some(c.value);
  }

  /** `led_command_execute` given its first two arguments. */
  function Decide(arg0: Option<string>, arg1: Option<string>): Outcome {
    match arg0
    case None => Outcome(true, Silent, Keep, 1)
    case Some(w) =>
      if EqualIgnoringCase(w, "ON") || EqualIgnoringCase(w, "OFF") then
        Outcome(true, Silent, Switch(EqualIgnoringCase(w, "ON")), 1)
      else if EqualIgnoringCase(w, "SET") then
        match arg1
        case None => Outcome(false, Usage, Keep, 2)
        case Some(n) =>
          match ParseDuty(n)
          case None => Outcome(false, Usage, Keep, 2)
          case Some(d) => Outcome(true, Silent, Blink(d), 2)
      else Outcome(true, UnknownArgument(w), Keep, 1)
  }

  /** The LED driver's state: the two volatile globals of led-command.c
      and the static counter of its timer interrupt. */
  class Led {
    var isBlinking: bool
    var dutyOn: Uint8
    var counter: Uint8

    /** The state at reset. */
    constructor ()
      ensures !isBlinking && dutyOn == 0 && counter == 0
    {
      isBlinking, dutyOn, counter := false, 0, 0;
    }

    /** `led_command_init` without the timer set-up: pin 5 becomes an
        output and is driven high, so the LED starts dark. */
    method Init(mcu: Mcu)
      modifies mcu`portfDir, mcu`portfOut
      ensures mcu.portfDir == SetBits(old(mcu.portfDir), PIN5)
      ensures mcu.portfOut == SetBits(old(mcu.portfOut), PIN5)
      ensures !LedLit(mcu.portfOut)
    {
      mcu.portfDir := mcu.portfDir | PIN5;
      mcu.portfOut := mcu.portfOut | PIN5;
    }

    /** `set_led`: blinking stops, and the active-low pin is driven low to
        light the LED or high to darken it; the other pins keep their
        levels. */
    method SetLed(on: bool, mcu: Mcu)
      modifies this`isBlinking, mcu`portfOut
      ensures !isBlinking
      ensures mcu.portfOut == if on then ClearBits(old(mcu.portfOut), PIN5) else SetBits(old(mcu.portfOut), PIN5)
      ensures LedLit(mcu.portfOut) <==> on
    {
      isBlinking := false;
      if on {
        mcu.portfOut := mcu.portfOut & !PIN5;
      } else {
        mcu.portfOut := mcu.portfOut | PIN5;
      }
    }

    /** `led_command_execute` on the argument list that starts at `arglist`
        and ends at the NUL at `end`; the new state is the action of
        `Decide`. */
    method Execute(a: array<char>, arglist: nat, end: nat, mcu: Mcu) returns (ok: bool, reply: Reply)
      requires Framed(a[..], end)
      modifies a, this`isBlinking, this`dutyOn, mcu`portfOut
      ensures var o := Decide(Argument(old(a[..]), arglist, end, 0), Argument(old(a[..]), arglist, end, 1));
        && ok == o.ok && reply == o.reply
        && a[..] == Consumed(old(a[..]), arglist, end, o.read).buf
        && match o.action
           case Keep =>
             isBlinking == old(isBlinking) && dutyOn == old(dutyOn) && mcu.portfOut == old(mcu.portfOut)
           case Switch(on) =>
             && !isBlinking && dutyOn == old(dutyOn)
             && mcu.portfOut == if on then ClearBits(old(mcu.portfOut), PIN5) else SetBits(old(mcu.portfOut), PIN5)
           case Blink(d) =>
             isBlinking && dutyOn == d && mcu.portfOut == old(mcu.portfOut)
    {
      ghost var s := a[..];
      var arg, rest := NextArgument(a, s, arglist, arglist, end, 0);
      if arg.Some? {
        var w := arg.value;
        if CaseCmp(w, "ON") == 0 || CaseCmp(w, "OFF") == 0 {
          SetLed(CaseCmp(w, "ON") == 0, mcu);
          return true, Silent;
        } else if CaseCmp(w, "SET") == 0 {
          ok, reply := ExecuteSet(a, s, arglist, rest, end, w);
          return;
        } else {
          reply := UnknownArgument(w);
        }
      } else {
        reply := Silent;
      }
      return true, reply;
    }

    /** The SET branch of `led_command_execute`, after its first argument
        `w` has been read: the duty value is read next and checked. */
    method ExecuteSet(a: array<char>, ghost s: seq<char>, ghost arglist0: nat, arglist: nat, end: nat, ghost w: string)
      returns (ok: bool, reply: Reply)
      requires Framed(s, end) && Consumed(s, arglist0, end, 1) == Cursor(a[..], arglist)
      requires EqualIgnoringCase(w, "SET")
      modifies a, this`isBlinking, this`dutyOn
      ensures var o := Decide(Some(w), Argument(s, arglist0, end, 1));
        && ok == o.ok && reply == o.reply
        && a[..] == Consumed(s, arglist0, end, o.read).buf
        && match o.action
           case Blink(d) => isBlinking && dutyOn == d
           case _ => isBlinking == old(isBlinking) && dutyOn == old(dutyOn)
    {
      SetBlinks(w, Argument(s, arglist0, end, 1));
      var arg, rest := NextArgument(a, s, arglist0, arglist, end, 1);
      if arg.None? {
        return false, Usage;
      }
      var duty := CheckDuty(arg.value);
      if duty.None? {
        return false, Usage;
      }
      isBlinking := false;
      dutyOn := duty.value;
      isBlinking := true;
      return true, Silent;
    }

    /** One overflow interrupt of TCA0: while blinking, the LED is lit
        exactly when the counter is below the duty value, and the 8-bit
        counter moves on, wrapping from 255 to 0. When not blinking nothing
        changes. */
    method Tick(mcu: Mcu)
      modifies this`counter, mcu`portfOut
      ensures isBlinking ==> counter == (old(counter) + 1) % 256
      ensures isBlinking ==> (LedLit(mcu.portfOut) <==> old(counter) < dutyOn)
      ensures isBlinking ==> mcu.portfOut & !PIN5 == old(mcu.portfOut) & !PIN5
      ensures !isBlinking ==> counter == old(counter) && mcu.portfOut == old(mcu.portfOut)
    {
      if isBlinking {
        if counter < dutyOn {
          mcu.portfOut := mcu.portfOut & !PIN5;
        } else {
          mcu.portfOut := mcu.portfOut | PIN5;
        }
        counter := (counter + 1) % 256;
      }
    }

    /** `n` consecutive overflow interrupts, counting those after which the
        LED is lit. While blinking, the count is `LitTicks` from the
        counter's starting value, so 256 interrupts light it on exactly
        `duty_on` of them, the counter has moved on by `n` modulo 256, the
        LED shows the level of the last interrupt and the other pins of
        PORTF are kept; when not blinking nothing changes. */
    method Run(n: nat, mcu: Mcu) returns (lit: nat)
      modifies this`counter, mcu`portfOut
      ensures isBlinking ==> lit == LitTicks(old(counter), dutyOn, n)
      ensures isBlinking && n == 256 ==> lit == dutyOn
      ensures isBlinking ==> counter == (old(counter) + n) % 256
      ensures isBlinking ==> mcu.portfOut & !PIN5 == old(mcu.portfOut) & !PIN5
      ensures isBlinking && n > 0 ==> (LedLit(mcu.portfOut) <==> (old(counter) + n - 1) % 256 < dutyOn)
      ensures !isBlinking ==> counter == old(counter) && mcu.portfOut == old(mcu.portfOut)
    {
      lit := 0;
      var i := 0;
      while i < n
        invariant i <= n
        invariant isBlinking ==> Progress(old(counter), old(mcu.portfOut), n, i, lit, mcu)
        invariant !isBlinking ==> counter == old(counter) && mcu.portfOut == old(mcu.portfOut)
      {
        lit := Advance(n, i, lit, mcu, old(counter), old(mcu.portfOut));
        i := i + 1;
      }
      assert i == n;
      if isBlinking {
        FullCycle(old(counter), dutyOn, n, lit);
      }
    }

    /** Where `Run` stands after `i` of its `n` interrupts. */
    ghost predicate Progress(c0: Uint8, out0: bv8, n: nat, i: nat, lit: nat, mcu: Mcu)
      reads this, mcu
    {
      && i <= n
      && lit == LitTicks(c0, dutyOn, i)
      && counter == (c0 + i) % 256
      && mcu.portfOut & !PIN5 == out0 & !PIN5
      && (i > 0 ==> (LedLit(mcu.portfOut) <==> (c0 + i - 1) % 256 < dutyOn))
    }

    /** Interrupt `i + 1` of the `n` that `Run` counts, started from the
        counter `c0` and the port value `out0`. */
    method Advance(n: nat, i: nat, lit: nat, mcu: Mcu, ghost c0: Uint8, ghost out0: bv8) returns (lit': nat)
      requires i < n
      requires isBlinking ==> Progress(c0, out0, n, i, lit, mcu)
      modifies this`counter, mcu`portfOut
      ensures isBlinking ==> Progress(c0, out0, n, i + 1, lit', mcu)
      ensures !isBlinking ==> counter == old(counter) && mcu.portfOut == old(mcu.portfOut)
    {
      ghost var c := counter;
      Tick(mcu);
      lit' := lit;
      if LedLit(mcu.portfOut) {
        lit' := lit + 1;
      }
      if isBlinking {
        CounterStep(c0, i, c);
        LitTicksSnoc(c0, dutyOn, i);
      }
    }
  }

  /** A count of `LitTicks` over 256 ticks is the duty value. */
  lemma FullCycle(c: Uint8, d: Uint8, n: nat, lit: nat)
    requires lit == LitTicks(c, d, n)
    ensures n == 256 ==> lit == d
  {
    if n == 256 {
      DutyCycle(c, d);
    }
  }

  /** One more tick at the end of a stretch counts the counter value it
      starts from. */
  lemma {:induction false} LitTicksSnoc(c: Uint8, d: Uint8, i: nat)
    ensures LitTicks(c, d, i + 1) == LitTicks(c, d, i) + (if (c + i) % 256 < d then 1 else 0)
    decreases i
  {
    if i > 0 {
      var c' := (c + 1) % 256;
      LitTicksSnoc(c', d, i - 1);
      assert (c' + (i - 1)) % 256 == (c + i) % 256;
    }
  }

  /** The 8-bit counter after one more tick. */
  lemma CounterStep(c0: int, i: nat, c: int)
    requires c == (c0 + i) % 256
    ensures (c + 1) % 256 == (c0 + i + 1) % 256 && c == (c0 + (i + 1) - 1) % 256
  {
  }

  /** `LED ON`, `LED OFF` in any case switch the LED and succeed, whatever
      follows. */
  lemma OnOff(w: string, next: Option<string>)
    requires EqualIgnoringCase(w, "ON") || EqualIgnoringCase(w, "OFF")
    ensures Decide(Some(w), next) == Outcome(true, Silent, Switch(EqualIgnoringCase(w, "ON")), 1)
  {
  }

  /** `LED SET <n>` blinks with duty `d` exactly when `n` parses as `d`;
      otherwise it prints the usage and fails. A missing `<n>` fails too. */
  lemma SetBlinks(w: string, n: Option<string>)
    requires EqualIgnoringCase(w, "SET")
    ensures Decide(Some(w), n).ok <==> n.Some? && ParseDuty(n.value).Some?
    ensures Decide(Some(w), n).ok ==> Decide(Some(w), n).action == Blink(ParseDuty(n.value).value)
    ensures !Decide(Some(w), n).ok ==> Decide(Some(w), n).action == Keep && Decide(Some(w), n).reply == Usage
  {
    assert !EqualIgnoringCase(w, "ON") && !EqualIgnoringCase(w, "OFF") by {
      assert Lower(w[0]) == 's';
    }
  }

  /** An argument other than ON, OFF and SET is reported, yet the command
      still succeeds and changes nothing. */
  lemma UnknownSucceeds(w: string, next: Option<string>)
    requires !EqualIgnoringCase(w, "ON") && !EqualIgnoringCase(w, "OFF") && !EqualIgnoringCase(w, "SET")
    ensures Decide(Some(w), next) == Outcome(true, UnknownArgument(w), Keep, 1)
  {
  }

  /** A word of digits is a duty value exactly when its value is at most
      255; trailing text after the digits is ignored. */
  lemma {:induction false} ParseDecimal(ds: string, rest: string)
    requires |ds| > 0 && forall i | 0 <= i < |ds| :: IsDigit(ds[i])
    requires |rest| == 0 || !IsDigit(rest[0])
    ensures DecimalValue(ds) <= 255 ==> ParseDuty(ds + rest) == Some(DecimalValue(ds))
    ensures DecimalValue(ds) > 255 ==> ParseDuty(ds + rest) == None
  {
    StrToLDecimal(ds, rest);
  }

  /** Examples of the parse: "12x" is 12, "+7" is 7, "-0" is 0; "256",
      "-1", "x" and the empty word are refused. */
  lemma ParseDigits()
    ensures ParseDuty("12x") == Some(12) && ParseDuty("256") == None
  {
    assert DecimalValue("12") == 12 by {
      assert "12"[..1] == "1" && "1"[..0] == "";
    }
    ParseDecimal("12", "x");
    assert "12" + "x" == "12x";
    assert DecimalValue("256") == 256 by {
      assert "256"[..2] == "25" && "25"[..1] == "2" && "2"[..0] == "";
    }
    ParseDecimal("256", "");
    assert "256" + "" == "256";
  }

  lemma ParseSigned()
    ensures ParseDuty("+7") == Some(7) && ParseDuty("-0") == Some(0) && ParseDuty("-1") == None
  {
    assert SpacesEnd("+7", 0) == 0 && DigitsEnd("+7", 1) == 2;
    assert "+7"[1..2] == "7" && "7"[..0] == "";
    assert SpacesEnd("-0", 0) == 0 && DigitsEnd("-0", 1) == 2;
    assert "-0"[1..2] == "0" && "0"[..0] == "";
    assert SpacesEnd("-1", 0) == 0 && DigitsEnd("-1", 1) == 2;
    assert "-1"[1..2] == "1" && "1"[..0] == "";
  }

  /** A word in which `strtol` finds no digit is refused: one that is
      empty, or starts with neither white space nor a digit, and has no
      digit right after a leading sign ("x", "+", "-x", ""). */
  lemma ParseNoDigits(w: string)
    requires |w| == 0 || (!IsSpace(w[0]) && !IsDigit(w[0]))
    requires |w| >= 2 && (w[0] == '+' || w[0] == '-') ==> !IsDigit(w[1])
    ensures ParseDuty(w) == None
  {
    assert SpacesEnd(w, 0) == 0;
  }

  /** How many of the `n` ticks that start with the counter at `c` light the
      LED when the duty value is `d`. */
  function LitTicks(c: int, d: int, n: nat): (k: nat)
    requires 0 <= c < 256 && 0 <= d < 256
    ensures k <= n
    decreases n
  {
    if n == 0 then 0 else (if c < d then 1 else 0) + LitTicks((c + 1) % 256, d, n - 1)
  }

  /** Ticks add up over consecutive stretches, the first of which ends at
      the latest where the counter wraps to 0. */
  lemma {:induction false} LitTicksSplit(c: int, d: int, m: nat, n: nat)
    requires 0 <= c < 256 && 0 <= d < 256 && c + m <= 256
    ensures LitTicks(c, d, m + n) == LitTicks(c, d, m) + LitTicks(if c + m == 256 then 0 else c + m, d, n)
    decreases m
  {
    if m > 0 {
      var c1 := if c == 255 then 0 else c + 1;
      assert c1 == (c + 1) % 256;
      assert m - 1 + n == (m + n) - 1;
      LitTicksSplit(c1, d, m - 1, n);
    }
  }

  /** Without a wrap of the counter, the lit ticks are those below `d`. */
  lemma {:induction false} LitTicksRun(c: int, d: int, n: nat)
    requires 0 <= c < 256 && 0 <= d < 256 && c + n <= 256
    ensures LitTicks(c, d, n) == if d <= c then 0 else if n < d - c then n else d - c
    decreases n
  {
    if n > 0 && c + 1 < 256 {
      LitTicksRun(c + 1, d, n - 1);
    }
  }

  /** The duty cycle: any 256 consecutive ticks, wherever the counter
      stands, light the LED on exactly `d` of them. */
  lemma DutyCycle(c: int, d: int)
    requires 0 <= c < 256 && 0 <= d < 256
    ensures LitTicks(c, d, 256) == d
  {
    var m: nat := 256 - c;
    assert m + c == 256;
    LitTicksSplit(c, d, m, c);
    LitTicksRun(c, d, m);
    LitTicksRun(0, d, c);
    var high, low := LitTicks(c, d, m), LitTicks(0, d, c);
    assert high == if d <= c then 0 else d - c;
    assert low == if d <= c then d else c;
  }

  /** `led_cmd` is not in the registry, which holds only `reset_cmd`, so
      `HELP LED` answers "No such command". */
  lemma Unregistered()
    ensures LedCmd !in Entries(Commands)
    ensures HelpCommand.Outcome(Some(LedCmd.name), Entries(Commands)) == (false, HelpCommand.NoSuchCommand("LED"))
  {
    CommandsVisitResetOnce();
    HelpCommand.HelpOverCommands(LedCmd.name);
  }
}
